/** The artwork form's submit: save the artwork (update when editing an existing
    one, create otherwise), upload the selected files into the artwork's folder,
    and record an image row for each successful upload, numbered among the
    successes. The form's state is a class; the services it calls are objects it
    holds. */
module ArtworkForms {
  import opened Common
  import opened DatabaseTypes
  import opened StorageSdk
  import opened Upload
  import opened Artworks
  import StorageService

  /** The alert shown when saving fails. */
  const SaveAlert: string := "작품 저장 중 오류가 발생했습니다."

  /** What the form sends to `update`: the required fields always, the optional
      ones as they were filled in. */
  function FormPatch(data: ArtworkData): (p: ArtworkPatch)
    ensures p.artistId == Some(data.artistId) && p.title == Some(data.title)
    ensures p.year == data.year && p.isFeatured == data.isFeatured
  {
    ArtworkPatch(Some(data.artistId), Some(data.title), data.year, data.materials, data.dimensions,
                 data.description, data.isFeatured)
  }

  /** The record for the k-th success: `<title> - Image <k+1>`, primary for the
      first success only, in the order of the successes. */
  function FormRecord(title: string, k: nat, url: string): ImageRecord {
    ImageRecord(url, title + " - Image " + NatToString(k + 1), k == 0, k)
  }

  /** The records of `onSubmit`, numbered by position among the successes, and only
      for a success that has a URL. */
  function FormRecords(successes: seq<UploadResult>, title: string): (r: seq<ImageRecord>)
    ensures |r| <= |successes|
  {
    if successes == [] then []
    else
      var k := |successes| - 1;
      var u := successes[k];
      FormRecords(successes[..k], title) +
        (if u.Uploaded? && u.publicUrl != "" then [FormRecord(title, k, u.publicUrl)] else [])
  }

  lemma FormRecordsStep(successes: seq<UploadResult>, title: string, k: nat)
    requires k < |successes|
    ensures var u := successes[k];
            FormRecords(successes[..k + 1], title) ==
            FormRecords(successes[..k], title) +
              (if u.Uploaded? && u.publicUrl != "" then [FormRecord(title, k, u.publicUrl)] else [])
  {
    var prefix := successes[..k + 1];
    assert prefix[..k] == successes[..k] && prefix[k] == successes[k];
  }

  /** When every success carries a URL, success k gets record k: its URL, the alt
      text `<title> - Image <k+1>`, order k, and the primary flag exactly for k 0. */
  lemma {:induction false} FormRecordsNumbered(successes: seq<UploadResult>, title: string)
    requires forall k :: 0 <= k < |successes| ==> successes[k].Uploaded? && successes[k].publicUrl != ""
    ensures var r := FormRecords(successes, title);
            |r| == |successes| &&
            forall k :: 0 <= k < |r| ==>
              r[k].imageUrl == successes[k].publicUrl && r[k].displayOrder == k && (r[k].isPrimary <==> k == 0) &&
              r[k].altText == title + " - Image " + NatToString(k + 1)
    decreases |successes|
  {
    if successes != [] {
      var k := |successes| - 1;
      FormRecordsNumbered(successes[..k], title);
    }
  }

  /** At most one record is primary, and only the first. */
  lemma {:induction false} FormRecordsOnePrimary(successes: seq<UploadResult>, title: string)
    ensures forall k | 0 <= k < |FormRecords(successes, title)| :: FormRecords(successes, title)[k].isPrimary ==> k == 0
    decreases |successes|
  {
    if successes != [] {
      var k := |successes| - 1;
      var init := successes[..k];
      FormRecordsOnePrimary(init, title);
      var r0 := FormRecords(init, title);
      var r := FormRecords(successes, title);
      var u := successes[k];
      if u.Uploaded? && u.publicUrl != "" {
        var rec := FormRecord(title, k, u.publicUrl);
        assert r == r0 + [rec];
        forall m | 0 <= m < |r| && r[m].isPrimary ensures m == 0 {
          if m < |r0| {
            assert r[m] == r0[m];
          } else {
            assert r[m] == rec && |r0| <= k;
          }
        }
      } else {
        assert r == r0;
      }
    }
  }

  /** One inserting step of the loop, on the table it builds: the row of record
      `k` goes after the rows so far. */
  lemma InsertStep(successes: seq<UploadResult>, title: string, k: nat, artworkId: nat,
                   images0: seq<ArtworkImage>, next0: nat, before: seq<ArtworkImage>, row: ArtworkImage,
                   after: seq<ArtworkImage>)
    requires k < |successes| && successes[k].Uploaded? && successes[k].publicUrl != ""
    requires before == images0 + StoredImages(artworkId, FormRecords(successes[..k], title), next0)
    requires row == StoredImage(artworkId, FormRecord(title, k, successes[k].publicUrl),
                                next0 + |FormRecords(successes[..k], title)|)
    requires after == before + [row]
    ensures |FormRecords(successes[..k + 1], title)| == |FormRecords(successes[..k], title)| + 1
    ensures after == images0 + StoredImages(artworkId, FormRecords(successes[..k + 1], title), next0)
  {
    FormRecordsStep(successes, title, k);
    var done := FormRecords(successes[..k], title);
    var record := FormRecord(title, k, successes[k].publicUrl);
    assert FormRecords(successes[..k + 1], title) == done + [record];
    var stored := StoredImages(artworkId, done, next0);
    StoredImagesSnoc(artworkId, done, record, next0);
    assert StoredImages(artworkId, done + [record], next0) == stored + [row];
    assert before + [row] == images0 + stored + [row];
    AppendOneAssoc(images0, stored, row);
    assert after == images0 + (stored + [row]);
    assert after == images0 + StoredImages(artworkId, done + [record], next0);
  }

  /** A skipped entry adds no record. */
  lemma SkipStep(successes: seq<UploadResult>, title: string, k: nat)
    requires k < |successes| && !(successes[k].Uploaded? && successes[k].publicUrl != "")
    ensures FormRecords(successes[..k + 1], title) == FormRecords(successes[..k], title)
  {
    FormRecordsStep(successes, title, k);
  }

  /** Inserting the records one by one. */
  method InsertFormRecords(service: ArtworkService, artworkId: nat, successes: seq<UploadResult>, title: string)
    requires service.Valid()
    modifies service
    ensures service.Valid()
    ensures var records := FormRecords(successes, title);
            service.images == old(service.images) + StoredImages(artworkId, records, old(service.nextImageId)) &&
            service.nextImageId == old(service.nextImageId) + |records|
    ensures service.artworks == old(service.artworks) && service.nextArtworkId == old(service.nextArtworkId)
  {
    ghost var images0 := service.images;
    ghost var next0 := service.nextImageId;
    assert successes[..0] == [];
    for k := 0 to |successes|
      invariant service.Valid()
      invariant service.images == images0 + StoredImages(artworkId, FormRecords(successes[..k], title), next0)
      invariant service.nextImageId == next0 + |FormRecords(successes[..k], title)|
      invariant service.artworks == old(service.artworks) && service.nextArtworkId == old(service.nextArtworkId)
    {
      InsertFormRecordAt(service, artworkId, successes, title, k, images0, next0);
    }
    assert successes[..|successes|] == successes;
  }

  /** One turn of the inserting loop: entry `k`, when it uploaded, is recorded. */
  method InsertFormRecordAt(service: ArtworkService, artworkId: nat, successes: seq<UploadResult>, title: string,
                            k: nat, ghost images0: seq<ArtworkImage>, ghost next0: nat)
    requires service.Valid() && k < |successes|
    requires service.images == images0 + StoredImages(artworkId, FormRecords(successes[..k], title), next0)
    requires service.nextImageId == next0 + |FormRecords(successes[..k], title)|
    modifies service
    ensures service.Valid()
    ensures service.images == images0 + StoredImages(artworkId, FormRecords(successes[..k + 1], title), next0)
    ensures service.nextImageId == next0 + |FormRecords(successes[..k + 1], title)|
    ensures service.artworks == old(service.artworks) && service.nextArtworkId == old(service.nextArtworkId)
  {
    var upload := successes[k];
    if upload.Uploaded? && upload.publicUrl != "" {
      ghost var before := service.images;
      var record := FormRecord(title, k, upload.publicUrl);
      var row := service.CreateImageRecord(artworkId, record);
      InsertStep(successes, title, k, artworkId, images0, next0, before, row, service.images);
    } else {
      SkipStep(successes, title, k);
    }
  }

  class ArtworkForm {
    /** The artwork being edited, if any, and the `isEditing` flag. */
    const artwork: Option<ArtworkRecord>
    const isEditing: bool
    const service: ArtworkService
    const storage: Storage
    var selectedFiles: seq<FileMeta>
    var isSubmitting: bool
    var uploadProgress: real

    ghost predicate Valid()
      reads this, service
    {
      service.Valid()
    }

    constructor(artwork: Option<ArtworkRecord>, isEditing: bool, service: ArtworkService, storage: Storage)
      requires service.Valid()
      ensures Valid()
      ensures this.artwork == artwork && this.isEditing == isEditing
      ensures this.service == service && this.storage == storage
      ensures selectedFiles == [] && !isSubmitting && uploadProgress == 0.0
    {
      this.artwork := artwork;
      this.isEditing := isEditing;
      this.service := service;
      this.storage := storage;
      selectedFiles := [];
      isSubmitting := false;
      uploadProgress := 0.0;
    }

    /** Whether a submit updates instead of creating. */
    predicate Editing() {
      isEditing && artwork.Some?
    }

    method HandleFileSelect(files: seq<FileMeta>)
      modifies this
      ensures selectedFiles == files
      ensures isSubmitting == old(isSubmitting) && uploadProgress == old(uploadProgress)
    {
      selectedFiles := files;
    }

    /** `removeFile(index)`: drops the file at `index` and keeps the rest in order. */
    method RemoveFile(index: int)
      modifies this
      ensures 0 <= index < |old(selectedFiles)| ==>
                |selectedFiles| == |old(selectedFiles)| - 1 &&
                (forall j :: 0 <= j < index ==> selectedFiles[j] == old(selectedFiles)[j]) &&
                (forall j :: index <= j < |selectedFiles| ==> selectedFiles[j] == old(selectedFiles)[j + 1])
      ensures !(0 <= index < |old(selectedFiles)|) ==> selectedFiles == old(selectedFiles)
      ensures isSubmitting == old(isSubmitting) && uploadProgress == old(uploadProgress)
    {
      selectedFiles := RemoveAt(selectedFiles, index);
    }

    /** Saving the artwork: `update` with the form's fields when editing, else
        `create`. */
    method Save(data: ArtworkData) returns (r: Result<ArtworkRecord>)
      requires Valid()
      modifies service
      ensures Valid()
      ensures Editing() ==>
                service.artworks == MapWhere(old(service.artworks), IsArtwork(artwork.value.id), Patched(FormPatch(data))) &&
                service.nextArtworkId == old(service.nextArtworkId) &&
                (r.Err? <==> !old(service.HasArtwork(artwork.value.id))) &&
                (r.Ok? ==> r.value.id == artwork.value.id && r.value.title == data.title)
      ensures !Editing() ==>
                r == Ok(NewArtwork(data, old(service.nextArtworkId))) &&
                service.artworks == old(service.artworks) + [r.value] &&
                service.nextArtworkId == old(service.nextArtworkId) + 1
      ensures service.images == old(service.images) && service.nextImageId == old(service.nextImageId)
    {
      if isEditing && artwork.Some? {
        r := service.Update(artwork.value.id, FormPatch(data));
      } else {
        var row := service.Create(data);
        r := Ok(row);
      }
    }

    /** `onSubmit`: a failed save shows the alert and keeps the selection; otherwise
        the selected files (if any) go to the folder `artwork_<id>`, each success
        with a URL is recorded, the selection is cleared and the saved artwork is
        handed to `onSuccess`. Either way the submitting flag and the progress end
        reset. */
    method OnSubmit(data: ArtworkData, ticks: nat -> Tick) returns (saved: Option<ArtworkRecord>, alert: Option<string>)
      requires Valid()
      modifies this, service, storage
      ensures Valid()
      ensures !isSubmitting && uploadProgress == 0.0
      ensures saved.None? <==> alert.Some?
      ensures alert.Some? ==>
                alert == Some(SaveAlert) && Editing() && !old(service.HasArtwork(artwork.value.id)) &&
                selectedFiles == old(selectedFiles) && storage.objects == old(storage.objects) &&
                service.artworks == old(service.artworks) && service.images == old(service.images)
      ensures saved.Some? ==>
                selectedFiles == [] &&
                (Editing() ==> saved.value.id == artwork.value.id && saved.value.title == data.title) &&
                (!Editing() ==> saved.value == NewArtwork(data, old(service.nextArtworkId)))
      ensures saved.Some? && old(selectedFiles) == [] ==>
                storage.objects == old(storage.objects) && service.images == old(service.images)
      ensures saved.Some? && old(selectedFiles) != [] ==>
                var up := UploadAll(storage.projectUrl, old(storage.objects), old(selectedFiles), BucketArtworks,
                                    StorageService.ArtworkFolder(saved.value.id), ticks);
                var records := FormRecords(Successful(up.0), saved.value.title);
                storage.objects == up.1 &&
                service.images == old(service.images) + StoredImages(saved.value.id, records, old(service.nextImageId))
    {
      isSubmitting := true;
      uploadProgress := 0.0;
      var result := Save(data);
      if result.Err? {
        assert service.artworks == old(service.artworks) by {
          forall i | 0 <= i < |service.artworks| ensures service.artworks[i] == old(service.artworks)[i] {
            assert old(service.artworks)[i].id != artwork.value.id;
          }
        }
        alert := Some(SaveAlert);
        saved := None;
      } else {
        var artworkResult := result.value;
        if |selectedFiles| > 0 {
          var results, progress := UploadFiles(storage, selectedFiles, BucketArtworks,
                                               StorageService.ArtworkFolder(artworkResult.id), ticks);
          InsertFormRecords(service, artworkResult.id, Successful(results), artworkResult.title);
        }
        selectedFiles := [];
        saved := Some(artworkResult);
        alert := None;
      }
      isSubmitting := false;
      uploadProgress := 0.0;
    }
  }
}
