/** The admin component that manages one exhibition's images: it keeps the last
    loaded images and their grouping, the files picked for upload and the type
    they are uploaded as, and issues the service calls for uploading, moving an
    image within its type group, and removing a picked file. */
module ImageManager {
  import opened Common
  import opened DatabaseTypes
  import opened StorageSdk
  import opened Sorting
  import opened Upload
  import opened ExhibitionImages
  import opened ExhibitionImageSchemas
  import StorageService

  datatype Direction = Up | Down

  const UploadAlert: string := "이미지 업로드 중 오류가 발생했습니다."
  const MoveAlert: string := "이미지 순서 변경 중 오류가 발생했습니다."

  /** The default of `allowedTypes`: all six types. */
  const DefaultAllowedTypes: seq<string> := ["poster", "artwork", "installation", "detail", "opening", "space"]

  /** The folder `handleUpload` uploads to: the exhibition's folder, then the type. */
  function UploadFolder(exhibitionId: nat, t: ImageType): string {
    StorageService.ExhibitionFolder(exhibitionId) + "/" + TypeName(t)
  }

  // ---------------------------------------------------------------------------
  // Moving within a type group
  // ---------------------------------------------------------------------------

  /** `findIndex(img => img.id === id)`. */
  function PositionOf(group: seq<ExhibitionImage>, id: nat): (p: int)
    ensures -1 <= p < |group|
    ensures p == -1 <==> !HasImage(group, id)
    ensures p >= 0 ==> group[p].id == id && forall j :: 0 <= j < p ==> group[j].id != id
  {
    if group == [] then -1
    else if group[0].id == id then 0
    else
      var p := PositionOf(group[1..], id);
      if p == -1 then -1 else p + 1
  }

  /** The neighbour `moveImage` swaps with, or none when the move does nothing: the
      image is not in the group, or it is first and moves up, or last and moves down. */
  function MoveTarget(group: seq<ExhibitionImage>, id: nat, d: Direction): (t: Option<nat>)
    ensures t.None? <==> PositionOf(group, id) == -1 ||
                         (d == Up && PositionOf(group, id) == 0) ||
                         (d == Down && PositionOf(group, id) == |group| - 1)
    ensures t.Some? ==> t.value < |group| &&
                        t.value == if d == Up then PositionOf(group, id) - 1 else PositionOf(group, id) + 1
  {
    var p := PositionOf(group, id);
    match d
    case Up => if p <= 0 then None else Some(p - 1)
    case Down => if p == -1 || p == |group| - 1 then None else Some(p + 1)
  }

  /** In a group listed in display order, moving up swaps with an image whose
      order is not larger, and moving down with one whose order is not smaller. */
  lemma MoveNeighbourOrder(group: seq<ExhibitionImage>, id: nat, d: Direction)
    requires Sorted(group, OrderLe)
    requires MoveTarget(group, id, d).Some?
    ensures var t := MoveTarget(group, id, d).value;
            var p := PositionOf(group, id);
            if d == Up then group[t].displayOrder <= group[p].displayOrder
            else group[p].displayOrder <= group[t].displayOrder
  {
  }

  /** Two artwork images stored with the later display order first: the loaded
      listing puts them in display order, so moving the first-stored image up
      swaps it with the other. */
  lemma MoveFollowsDisplayOrder(a: ExhibitionImage, b: ExhibitionImage)
    requires a == ExhibitionImage(1, 7, "a", None, 1, Artwork, 0)
    requires b == ExhibitionImage(2, 7, "b", None, 0, Artwork, 0)
    ensures SortBy([a, b], TypeThenOrder) == [b, a]
    ensures MoveTarget(OfType(SortBy([a, b], TypeThenOrder), Artwork), a.id, Up) == Some(0)
  {
    assert [a, b][1..] == [b] && [b][1..] == [];
    assert SortBy([b], TypeThenOrder) == Insert(b, [], TypeThenOrder) == [b];
    assert !TypeThenOrder(a, b);
    assert Insert(a, [b], TypeThenOrder) == [b] + Insert(a, [], TypeThenOrder) == [b, a];
    assert OfType([b, a], Artwork) == [b, a] by {
      assert [b, a][1..] == [a];
    }
  }

  /** The two updates of a move: the image takes the neighbour's order and the
      neighbour the image's. */
  function Swapped(rows: seq<ExhibitionImage>, image: ExhibitionImage, neighbour: ExhibitionImage): seq<ExhibitionImage> {
    PatchWhere(PatchWhere(rows, image.id, OrderUpdate(neighbour.displayOrder)), neighbour.id,
               OrderUpdate(image.displayOrder))
  }

  /** The two `update` calls of a move, one after the other; both succeed exactly
      when both ids have a row. */
  method UpdateBoth(service: ExhibitionImageService, image: ExhibitionImage, neighbour: ExhibitionImage)
    returns (ok: bool)
    requires service.Valid()
    modifies service
    ensures service.Valid()
    ensures service.rows == Swapped(old(service.rows), image, neighbour) && service.nextId == old(service.nextId)
    ensures ok <==> HasImage(old(service.rows), image.id) && HasImage(old(service.rows), neighbour.id)
  {
    ghost var rows0 := service.rows;
    var first := service.Update(image.id, OrderUpdate(neighbour.displayOrder));
    ghost var rows1 := service.rows;
    assert HasImage(rows1, neighbour.id) <==> HasImage(rows0, neighbour.id) by {
      assert forall j :: 0 <= j < |rows1| ==> rows1[j].id == rows0[j].id;
    }
    var second := service.Update(neighbour.id, OrderUpdate(image.displayOrder));
    ok := first.Ok? && second.Ok?;
  }

  /** Between two distinct ids, the swap exchanges exactly their display orders and
      leaves every other row, and every other column, as it was. */
  lemma SwapSpec(rows: seq<ExhibitionImage>, image: ExhibitionImage, neighbour: ExhibitionImage)
    requires image.id != neighbour.id
    ensures var r := Swapped(rows, image, neighbour);
            |r| == |rows| &&
            forall j :: 0 <= j < |rows| ==>
              r[j] == if rows[j].id == image.id then rows[j].(displayOrder := neighbour.displayOrder)
                      else if rows[j].id == neighbour.id then rows[j].(displayOrder := image.displayOrder)
                      else rows[j]
  {
    var mid := PatchWhere(rows, image.id, OrderUpdate(neighbour.displayOrder));
    var r := Swapped(rows, image, neighbour);
    forall j | 0 <= j < |rows|
      ensures r[j] == if rows[j].id == image.id then rows[j].(displayOrder := neighbour.displayOrder)
                      else if rows[j].id == neighbour.id then rows[j].(displayOrder := image.displayOrder)
                      else rows[j]
    {
      assert mid[j].id == rows[j].id;
    }
  }

  /** The move buttons as the card is told to show them: by display order. */
  predicate CanMoveUpAsWritten(image: ExhibitionImage) {
    image.displayOrder > 0
  }

  predicate CanMoveDownAsWritten(group: seq<ExhibitionImage>, image: ExhibitionImage) {
    image.displayOrder < |group| - 1
  }

  /** The move buttons by position: on exactly when pressing them moves the image. */
  predicate CanMove(group: seq<ExhibitionImage>, image: ExhibitionImage, d: Direction) {
    MoveTarget(group, image.id, d).Some?
  }

  /** Inside its group, the image can move up unless it is first and down unless it
      is last. */
  lemma CanMoveByPosition(group: seq<ExhibitionImage>, p: nat)
    requires p < |group| && UniqueImageIds(group)
    ensures CanMove(group, group[p], Up) <==> p > 0
    ensures CanMove(group, group[p], Down) <==> p < |group| - 1
  {
    var q := PositionOf(group, group[p].id);
    assert q == p;
  }

  /** The order-based flags disagree with what a press does once orders have a gap:
      with orders 0, 2, 3 the middle image's down button is off although it can move,
      and with orders 1, 2 the first image's up button is on although pressing it
      does nothing. */
  lemma MoveFlagsAsWrittenDisagree()
    ensures var g := [ExhibitionImage(1, 1, "a", None, 0, Artwork, 0), ExhibitionImage(2, 1, "b", None, 2, Artwork, 0),
                      ExhibitionImage(3, 1, "c", None, 3, Artwork, 0)];
            !CanMoveDownAsWritten(g, g[1]) && CanMove(g, g[1], Down)
    ensures var g := [ExhibitionImage(1, 1, "a", None, 1, Artwork, 0), ExhibitionImage(2, 1, "b", None, 2, Artwork, 0)];
            CanMoveUpAsWritten(g[0]) && !CanMove(g, g[0], Up)
  {
    var g := [ExhibitionImage(1, 1, "a", None, 0, Artwork, 0), ExhibitionImage(2, 1, "b", None, 2, Artwork, 0),
              ExhibitionImage(3, 1, "c", None, 3, Artwork, 0)];
    assert PositionOf(g, 2) == 1;
    var h := [ExhibitionImage(1, 1, "a", None, 1, Artwork, 0), ExhibitionImage(2, 1, "b", None, 2, Artwork, 0)];
    assert PositionOf(h, 1) == 0;
  }

  /** When the orders are exactly 0, 1, 2, … in group order, the written flags agree
      with the positional ones. */
  lemma MoveFlagsAgreeWhenDense(group: seq<ExhibitionImage>, p: nat)
    requires p < |group| && UniqueImageIds(group)
    requires forall j :: 0 <= j < |group| ==> group[j].displayOrder == j
    ensures CanMoveUpAsWritten(group[p]) <==> CanMove(group, group[p], Up)
    ensures CanMoveDownAsWritten(group, group[p]) <==> CanMove(group, group[p], Down)
  {
    CanMoveByPosition(group, p);
  }

  // ---------------------------------------------------------------------------
  // Records for new uploads
  // ---------------------------------------------------------------------------

  /** `uploadResults.filter(result => result.success)` */
  /** The insert for the k-th success: the type's label numbered from 1, the picked
      type, and the order after the group's current images. */
  function RecordFor(exhibitionId: nat, t: ImageType, base: nat, k: nat, url: string): NewImage {
    NewImage(exhibitionId, url, Some(Label(t) + " " + NatToString(k + 1)), base + k, t)
  }

  /** The inserts of `handleUpload`, numbered by position among the successes, and
      only for a success that has a URL. */
  function ManagerRecords(successes: seq<UploadResult>, exhibitionId: nat, t: ImageType, base: nat): (r: seq<NewImage>)
    ensures |r| <= |successes|
  {
    if successes == [] then []
    else
      var k := |successes| - 1;
      var u := successes[k];
      ManagerRecords(successes[..k], exhibitionId, t, base) +
        (if u.Uploaded? && u.publicUrl != "" then [RecordFor(exhibitionId, t, base, k, u.publicUrl)] else [])
  }

  lemma ManagerRecordsStep(successes: seq<UploadResult>, exhibitionId: nat, t: ImageType, base: nat, k: nat)
    requires k < |successes|
    ensures var u := successes[k];
            ManagerRecords(successes[..k + 1], exhibitionId, t, base) ==
            ManagerRecords(successes[..k], exhibitionId, t, base) +
              (if u.Uploaded? && u.publicUrl != "" then [RecordFor(exhibitionId, t, base, k, u.publicUrl)] else [])
  {
    var prefix := successes[..k + 1];
    assert prefix[..k] == successes[..k] && prefix[k] == successes[k];
  }

  /** When every success carries a URL, success k gets record k, with alt text
      `<label> <k+1>`, the picked type and order `base + k`. */
  lemma {:induction false} ManagerRecordsNumbered(successes: seq<UploadResult>, exhibitionId: nat, t: ImageType,
                                                  base: nat)
    requires forall k :: 0 <= k < |successes| ==> successes[k].Uploaded? && successes[k].publicUrl != ""
    ensures var r := ManagerRecords(successes, exhibitionId, t, base);
            |r| == |successes| &&
            forall k :: 0 <= k < |r| ==> r[k] == RecordFor(exhibitionId, t, base, k, successes[k].publicUrl)
    decreases |successes|
  {
    if successes != [] {
      var k := |successes| - 1;
      ManagerRecordsNumbered(successes[..k], exhibitionId, t, base);
    }
  }

  /** Inserting one more record after a batch gives it the next id. */
  lemma MaterializeAllSnoc(ns: seq<NewImage>, n: NewImage, firstId: nat, now: int)
    ensures MaterializeAll(ns + [n], firstId, now) == MaterializeAll(ns, firstId, now) + [Materialize(n, firstId + |ns|, now)]
  {
  }

  /** `filteredTypeOptions`: the option list's entries whose value is allowed, in
      the option list's order. */
  function FilteredTypeOptions(allowedTypes: seq<string>): (r: seq<TypeOption>)
    ensures forall k :: 0 <= k < |r| ==> r[k] in ImageTypeOptions && r[k].value in allowedTypes
    ensures forall k :: 0 <= k < |ImageTypeOptions| && ImageTypeOptions[k].value in allowedTypes ==>
              ImageTypeOptions[k] in r
  {
    Filter(ImageTypeOptions, (o: TypeOption) => o.value in allowedTypes)
  }

  /** With the default allowed types every option is offered, in order. */
  lemma DefaultOffersAll()
    ensures FilteredTypeOptions(DefaultAllowedTypes) == ImageTypeOptions
  {
    FilterAll(ImageTypeOptions, (o: TypeOption) => o.value in DefaultAllowedTypes);
  }

  /** The record loop of `handleUpload`: one insert per success with a URL, in order. */
  method InsertRecords(service: ExhibitionImageService, successes: seq<UploadResult>, exhibitionId: nat,
                       t: ImageType, base: nat, now: int)
    requires service.Valid()
    modifies service
    ensures service.Valid()
    ensures var records := ManagerRecords(successes, exhibitionId, t, base);
            service.rows == old(service.rows) + MaterializeAll(records, old(service.nextId), now) &&
            service.nextId == old(service.nextId) + |records|
  {
    ghost var rows0 := service.rows;
    ghost var next0 := service.nextId;
    assert successes[..0] == [];
    for k := 0 to |successes|
      invariant service.Valid()
      invariant service.rows == rows0 + MaterializeAll(ManagerRecords(successes[..k], exhibitionId, t, base), next0, now)
      invariant service.nextId == next0 + |ManagerRecords(successes[..k], exhibitionId, t, base)|
    {
      InsertRecordAt(service, successes, exhibitionId, t, base, now, k, rows0, next0);
    }
    assert successes[..|successes|] == successes;
  }

  /** One turn of the record loop: success `k`, when it has a URL, is inserted. */
  method InsertRecordAt(service: ExhibitionImageService, successes: seq<UploadResult>, exhibitionId: nat,
                        t: ImageType, base: nat, now: int, k: nat, ghost rows0: seq<ExhibitionImage>, ghost next0: nat)
    requires service.Valid() && k < |successes|
    requires service.rows == rows0 + MaterializeAll(ManagerRecords(successes[..k], exhibitionId, t, base), next0, now)
    requires service.nextId == next0 + |ManagerRecords(successes[..k], exhibitionId, t, base)|
    modifies service
    ensures service.Valid()
    ensures service.rows == rows0 + MaterializeAll(ManagerRecords(successes[..k + 1], exhibitionId, t, base), next0, now)
    ensures service.nextId == next0 + |ManagerRecords(successes[..k + 1], exhibitionId, t, base)|
  {
    var upload := successes[k];
    if upload.Uploaded? && upload.publicUrl != "" {
      ghost var before := service.rows;
      var row := service.Create(RecordFor(exhibitionId, t, base, k, upload.publicUrl), now);
      InsertRecordStep(successes, exhibitionId, t, base, k, rows0, next0, now, before, row, service.rows);
    } else {
      ManagerRecordsStep(successes, exhibitionId, t, base, k);
    }
  }

  /** One inserting turn on the table it builds: the row of the new record goes
      after the rows so far. */
  lemma InsertRecordStep(successes: seq<UploadResult>, exhibitionId: nat, t: ImageType, base: nat, k: nat,
                         rows0: seq<ExhibitionImage>, next0: nat, now: int, before: seq<ExhibitionImage>,
                         row: ExhibitionImage, after: seq<ExhibitionImage>)
    requires k < |successes| && successes[k].Uploaded? && successes[k].publicUrl != ""
    requires before == rows0 + MaterializeAll(ManagerRecords(successes[..k], exhibitionId, t, base), next0, now)
    requires row == Materialize(RecordFor(exhibitionId, t, base, k, successes[k].publicUrl),
                                next0 + |ManagerRecords(successes[..k], exhibitionId, t, base)|, now)
    requires after == before + [row]
    ensures |ManagerRecords(successes[..k + 1], exhibitionId, t, base)| ==
            |ManagerRecords(successes[..k], exhibitionId, t, base)| + 1
    ensures after == rows0 + MaterializeAll(ManagerRecords(successes[..k + 1], exhibitionId, t, base), next0, now)
  {
    ManagerRecordsStep(successes, exhibitionId, t, base, k);
    var done := ManagerRecords(successes[..k], exhibitionId, t, base);
    var record := RecordFor(exhibitionId, t, base, k, successes[k].publicUrl);
    assert ManagerRecords(successes[..k + 1], exhibitionId, t, base) == done + [record];
    var stored := MaterializeAll(done, next0, now);
    MaterializeAllSnoc(done, record, next0, now);
    assert MaterializeAll(done + [record], next0, now) == stored + [row];
    assert before + [row] == rows0 + stored + [row];
    AppendOneAssoc(rows0, stored, row);
  }

  // ---------------------------------------------------------------------------
  // The component's state
  // ---------------------------------------------------------------------------

  class ExhibitionImageManager {
    const exhibitionId: nat
    const allowedTypes: seq<string>
    const maxImagesPerType: nat
    const service: ExhibitionImageService
    const storage: Storage

    var images: seq<ExhibitionImage>
    var grouped: Grouped
    var selectedType: ImageType
    var selectedFiles: seq<FileMeta>
    var uploading: bool
    /** The last message shown with `alert`, if any. */
    var alert: Option<string>

    /** The service's table is consistent, and the loaded groups have distinct ids. */
    ghost predicate Valid()
      reads this, service
    {
      service.Valid() && forall t :: UniqueImageIds(grouped.Of(t))
    }

    /** The component before its first load: nothing loaded (`{}` groups count as
        empty), the first allowed type picked, no files. */
    constructor(exhibitionId: nat, allowedTypes: seq<string>, maxImagesPerType: nat, service: ExhibitionImageService,
                storage: Storage, firstType: ImageType)
      requires service.Valid()
      requires |allowedTypes| > 0 && ParseImageType(allowedTypes[0]) == Some(firstType)
      ensures Valid()
      ensures this.exhibitionId == exhibitionId && this.allowedTypes == allowedTypes && this.service == service
      ensures this.storage == storage && this.maxImagesPerType == maxImagesPerType
      ensures images == [] && selectedType == firstType && selectedFiles == [] && !uploading && alert.None?
      ensures forall t :: grouped.Of(t) == []
    {
      this.exhibitionId := exhibitionId;
      this.allowedTypes := allowedTypes;
      this.maxImagesPerType := maxImagesPerType;
      this.service := service;
      this.storage := storage;
      images := [];
      grouped := Grouped([], [], [], [], [], [], [], Counts(0, 0, 0, 0, 0, 0, 0));
      selectedType := firstType;
      selectedFiles := [];
      uploading := false;
      alert := None;
    }

    /** `loadImages`: the exhibition's images and their grouping, read afresh. */
    method LoadImages()
      requires Valid()
      modifies this
      ensures Valid()
      ensures images == service.ImagesByType(exhibitionId) && grouped.all == images
      ensures forall t :: grouped.Of(t) == OfType(images, t)
      ensures grouped.InDisplayOrder()
      ensures selectedType == old(selectedType) && selectedFiles == old(selectedFiles)
      ensures uploading == old(uploading) && alert == old(alert)
    {
      images := service.ImagesByType(exhibitionId);
      grouped := service.GetGroupedByType(exhibitionId);
      FilterKeepsUnique(service.rows, Selects(exhibitionId, None));
      SortKeepsUnique(service.ImagesOf(exhibitionId, None), TypeThenOrder);
      forall t ensures UniqueImageIds(grouped.Of(t)) {
        FilterKeepsUnique(images, HasType(t));
      }
    }

    /** `handleFileSelect` */
    method HandleFileSelect(files: seq<FileMeta>)
      modifies this
      ensures selectedFiles == files
      ensures images == old(images) && grouped == old(grouped) && selectedType == old(selectedType)
      ensures uploading == old(uploading) && alert == old(alert)
    {
      selectedFiles := files;
    }

    /** `removeFile(index)`: the picked file at `index` is dropped, the others keep
        their order; an index outside the list drops nothing. */
    method RemoveFile(index: int)
      modifies this
      ensures 0 <= index < |old(selectedFiles)| ==>
                |selectedFiles| == |old(selectedFiles)| - 1 &&
                (forall j :: 0 <= j < index ==> selectedFiles[j] == old(selectedFiles)[j]) &&
                (forall j :: index <= j < |selectedFiles| ==> selectedFiles[j] == old(selectedFiles)[j + 1])
      ensures !(0 <= index < |old(selectedFiles)|) ==> selectedFiles == old(selectedFiles)
      ensures images == old(images) && grouped == old(grouped) && selectedType == old(selectedType)
      ensures uploading == old(uploading) && alert == old(alert)
    {
      selectedFiles := RemoveAt(selectedFiles, index);
    }

    /** `handleUpload`: nothing happens without picked files. Otherwise the files
        go to `exhibitions/exhibition_<id>/<type>`, every success gets a record
        (numbered among the successes, ordered after the group's current size),
        the images are reloaded and the picked files cleared. Reaching
        `maxImagesPerType` does not stop it. */
    method HandleUpload(ticks: nat -> Tick, now: int)
      requires Valid()
      modifies this, service, storage
      ensures Valid()
      ensures old(selectedFiles) == [] ==>
                service.rows == old(service.rows) && storage.objects == old(storage.objects) &&
                selectedFiles == [] && images == old(images) && grouped == old(grouped)
      ensures old(selectedFiles) != [] ==>
                var up := UploadAll(storage.projectUrl, old(storage.objects), old(selectedFiles), BucketExhibitions,
                                    UploadFolder(exhibitionId, old(selectedType)), ticks);
                var records := ManagerRecords(Successful(up.0), exhibitionId, old(selectedType),
                                              |old(grouped).Of(old(selectedType))|);
                storage.objects == up.1 &&
                service.rows == old(service.rows) + MaterializeAll(records, old(service.nextId), now) &&
                service.nextId == old(service.nextId) + |records| &&
                selectedFiles == [] && images == service.ImagesByType(exhibitionId) &&
                forall t :: grouped.Of(t) == OfType(images, t)
      ensures selectedType == old(selectedType) && !uploading && alert == old(alert)
    {
      if selectedFiles == [] {
        uploading := false;
        return;
      }
      uploading := true;
      UploadAndRecord(ticks, now);
      ReloadAndClear();
      uploading := false;
    }

    /** After the records are written: the images are read afresh and the picked
        files cleared. */
    method ReloadAndClear()
      requires Valid()
      modifies this
      ensures Valid()
      ensures images == service.ImagesByType(exhibitionId) && forall t :: grouped.Of(t) == OfType(images, t)
      ensures selectedFiles == [] && selectedType == old(selectedType) && alert == old(alert)
    {
      LoadImages();
      selectedFiles := [];
    }

    /** The storage and table part of `handleUpload`: the selected files are
        uploaded into the type's folder and every success with a URL recorded. */
    method UploadAndRecord(ticks: nat -> Tick, now: int)
      requires Valid()
      modifies service, storage
      ensures Valid()
      ensures var up := UploadAll(storage.projectUrl, old(storage.objects), selectedFiles, BucketExhibitions,
                                  UploadFolder(exhibitionId, selectedType), ticks);
              var records := ManagerRecords(Successful(up.0), exhibitionId, selectedType,
                                            |grouped.Of(selectedType)|);
              storage.objects == up.1 &&
              service.rows == old(service.rows) + MaterializeAll(records, old(service.nextId), now) &&
              service.nextId == old(service.nextId) + |records|
    {
      var results, progress := UploadFiles(storage, selectedFiles, BucketExhibitions,
                                           UploadFolder(exhibitionId, selectedType), ticks);
      InsertRecords(service, Successful(results), exhibitionId, selectedType, |grouped.Of(selectedType)|, now);
    }

    /** `moveImage`: a move that does nothing issues no call; otherwise the image
        and its neighbour in the loaded group exchange display orders, and the
        images are reloaded, or an alert is shown when an update finds no row. */
    method MoveImage(image: ExhibitionImage, d: Direction)
      requires Valid()
      modifies this, service
      ensures Valid()
      ensures var group := old(grouped).Of(image.imageType);
              MoveTarget(group, image.id, d).None? ==>
                service.rows == old(service.rows) && images == old(images) && grouped == old(grouped) &&
                alert == old(alert)
      ensures var group := old(grouped).Of(image.imageType);
              var target := MoveTarget(group, image.id, d);
              target.Some? ==>
                group[target.value].id != image.id &&
                service.rows == Swapped(old(service.rows), image, group[target.value]) &&
                (HasImage(old(service.rows), image.id) && HasImage(old(service.rows), group[target.value].id) ==>
                   images == service.ImagesByType(exhibitionId) && alert == old(alert) &&
                   (forall t :: grouped.Of(t) == OfType(images, t)) && grouped.InDisplayOrder()) &&
                (!(HasImage(old(service.rows), image.id) && HasImage(old(service.rows), group[target.value].id)) ==>
                   alert == Some(MoveAlert) && images == old(images) && grouped == old(grouped))
      ensures service.nextId == old(service.nextId)
      ensures selectedType == old(selectedType) && selectedFiles == old(selectedFiles) && uploading == old(uploading)
    {
      var typeImages := grouped.Of(image.imageType);
      var target := MoveTarget(typeImages, image.id, d);
      if target.None? {
        return;
      }
      var neighbour := typeImages[target.value];
      var p := PositionOf(typeImages, image.id);
      assert neighbour.id != image.id by {
        if d == Down {
          assert typeImages[p].id == image.id;
        }
      }
      SwapOrders(image, neighbour);
    }

    /** The two updates of a move and the reload after them: the image takes the
        neighbour's order and the neighbour the image's; the images are reloaded
        when both updates find their row, and the alert is raised otherwise. */
    method SwapOrders(image: ExhibitionImage, neighbour: ExhibitionImage)
      requires Valid()
      requires image.id != neighbour.id
      modifies this, service
      ensures Valid()
      ensures service.rows == Swapped(old(service.rows), image, neighbour)
      ensures HasImage(old(service.rows), image.id) && HasImage(old(service.rows), neighbour.id) ==>
                images == service.ImagesByType(exhibitionId) && alert == old(alert) &&
                (forall t :: grouped.Of(t) == OfType(images, t)) && grouped.InDisplayOrder()
      ensures !(HasImage(old(service.rows), image.id) && HasImage(old(service.rows), neighbour.id)) ==>
                alert == Some(MoveAlert) && images == old(images) && grouped == old(grouped)
      ensures service.nextId == old(service.nextId)
      ensures selectedType == old(selectedType) && selectedFiles == old(selectedFiles) && uploading == old(uploading)
    {
      var ok := UpdateBoth(service, image, neighbour);
      if !ok {
        alert := Some(MoveAlert);
      } else {
        LoadImages();
      }
    }
  }
}
