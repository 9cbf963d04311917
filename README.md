# PipeGalleryWeb core in Dafny

This project models the rule-bearing core of PipeGalleryWeb, a Next.js gallery site
with exhibitions, artists, artworks, exhibition images, news posts, videos and a
newsletter. It proves properties of that model. It covers:

- **Database services.** These are the exhibition, exhibition-image, artwork, news,
  video and newsletter services over their tables. Each table is a class with a
  `rows` sequence and the next id to hand out. `Valid()` keeps the ids unique and
  below that counter.
- **Storage.** This covers the upload helpers (file validation, generated names,
  public URLs, the batch upload loop, deletion and cleanup) and the storage service.
  Its object store is a class holding a set of bucket/path keys.
- **Client state.** This covers the three client stores (exhibitions, artists, UI),
  the exhibition image manager, the artwork form and the artwork grid, with their
  state fields updated by methods.
- **Input schemas.** These are the zod schemas as predicates over their inputs, with
  lemmas on what they accept and refuse.
- **Helpers and routing.** This covers the string and date helpers, the language
  preference with its translation tables, and the request middleware's routing
  rule.

The model abstracts the outside world as follows:

- **Foreign behaviour comes in as parameters.** This covers the clock (`now`,
  `ticks`), the random token in file names, storage failures (`fault`, `removeFault`),
  the browser's collation (`nameLe`), date parsing (`parse`, `dateKey`), and the
  platform's URL, UUID and e-mail checks (`Formats`).
- **Database writes are total.** A lookup that finds no row is an error value,
  `NoRow`, as `.single()` reports it.
- **`Promise.all` batches are sequential loops.** Every item is attempted even after
  a failure.
- **Dates are integers.** A date is a millisecond count or an invalid date, so
  comparisons against `NaN` are false, as in JavaScript.
- **JavaScript numbers in the schemas are `real`.** This keeps `.int()` meaningful.
- **String lengths are UTF-16 code units.** A Dafny `string` holds code points, so
  `Utf16Length` counts two units for a character outside the Basic Multilingual
  Plane. The zod length checks, the YouTube id test and the file-name sanitizer,
  which sees each surrogate on its own, use it.

## Model

| member | source | states |
|---|---|---|
| Upload.ValidateImageFile | src/lib/utils/upload.ts:4-42 | valid exactly when the size is at most 50·1024·1024 and the type is one of the five listed; an oversized file gets the size message whatever its type; an admissible size with an unlisted type gets the type message |
| Upload.SizeErrorText | src/lib/utils/upload.ts:26-30 | the size message names the cap as 50MB |
| Upload.CapIsInclusive | src/lib/utils/upload.ts:26 | a listed type at exactly 50 MiB passes; one byte more is refused with the size message |
| Upload.SanitizeChar | src/lib/utils/upload.ts:49 | every result character is an ASCII letter, digit or `_`; ASCII letters and digits are kept |
| Upload.Sanitize | src/lib/utils/upload.ts:49 | as many characters as the input has UTF-16 code units, each an ASCII letter, digit or `_` |
| Upload.SanitizeUnits | src/lib/utils/upload.ts:49 | a character becomes one replacement per UTF-16 code unit it takes, all equal to its sanitized form |
| Upload.SanitizeBmp | src/lib/utils/upload.ts:49 | on text of the Basic Multilingual Plane the result is as long as the input and character i is the sanitized character i |
| Upload.SanitizeAstral | src/lib/utils/upload.ts:49 | a character outside the Basic Multilingual Plane, whose two surrogates the regular expression sees apart, becomes two underscores |
| Upload.Extension | src/lib/utils/upload.ts:48 | the extension contains no dot and no upper-case ASCII letter |
| Upload.BaseName | src/lib/utils/upload.ts:49 | as many characters as the text before the first dot has UTF-16 code units, and dot-free |
| Upload.GenerateFileName | src/lib/utils/upload.ts:45-55 | ends with "." and the extension; starts with prefix + "_" + base name + "_" exactly when a non-empty prefix is given, otherwise with base name + "_" |
| Upload.GeneratedExtension | src/lib/utils/upload.ts:48-53 | the generated name's own last dot-piece is the original's lower-cased extension |
| Upload.FinalFileName | src/lib/utils/upload.ts:73 | never empty; a given name is used as is |
| Upload.FilePath | src/lib/utils/upload.ts:74 | folder + "/" + name with a folder, the bare name without one |
| Upload.UploadOutcomeSpec | src/lib/utils/upload.ts:59-105 | a rejected file fails with the validation message and writes nothing; an admissible file succeeds exactly when its key is free and the store reports no error, and then adds exactly that key and returns its public URL and path |
| Upload.UploadFile | src/lib/utils/upload.ts:59-105 | the answer and the new store are those of the upload outcome for the current store |
| Upload.UploadAll | src/lib/utils/upload.ts:108-126 | one result per file; the store only grows |
| Upload.UploadAllPrefix | src/lib/utils/upload.ts:116-123 | the first k results depend only on the first k files |
| Upload.UploadAllAt | src/lib/utils/upload.ts:116-119 | result i is the outcome of uploading file i into the store the files before it left |
| Upload.UploadAllRejectsInvalid | src/lib/utils/upload.ts:67-119 | a file that fails validation gets that failure wherever it stands |
| Upload.UploadAllStoresSuccesses | src/lib/utils/upload.ts:116-119 | each successful result's key is in the final store |
| Upload.UploadAllPaths | src/lib/utils/upload.ts:73-118 | a multi-file upload names every key folder + "/" + a generated name without prefix |
| Upload.UploadFiles | src/lib/utils/upload.ts:108-126 | the results and final store are those of the fold; progress is reported once per file as (i + 1, n), strictly increasing, ending at (n, n) |
| Upload.Successful | src/lib/utils/upload.ts:16-21 | the successful results of a batch, every one of them and nothing else |
| Upload.SuccessesHaveUrls | src/lib/utils/upload.ts:89-97 | every success of a batch carries a non-empty public URL |
| Upload.ExtractFilePath | src/lib/utils/upload.ts:148-163 | Some exactly when a path segment equals the bucket and is not the last one; the result joins the segments after the first such one with "/" |
| Upload.ExtractPublicPath | src/lib/utils/upload.ts:148-163 | the path comes back out of its own public URL pathname, folders included |
| Upload.StoredPathRecovers | src/lib/utils/upload.ts:148-163 | reading a project public URL back gives the full stored path |
| Upload.LastSegmentDropsFolder | src/lib/api/exhibition-images.ts:301 | the last URL segment of a file in a folder is the bare name, which is not the stored key |
| Upload.DeleteFile | src/lib/utils/upload.ts:129-145 | true exactly when the store reports no error; only then is the key removed |
| Upload.UnusedFiles | src/lib/utils/upload.ts:221-224 | the listed names that no used path contains as a substring, all of them and only them |
| Upload.UsedNameKept | src/lib/utils/upload.ts:224 | a name that ends some used path, as a stored key ends its public URL, is never selected for removal |
| Upload.CleanupUnusedFiles | src/lib/utils/upload.ts:212-243 | with no listing 0 and nothing removed; with nothing unused or a failing removal 0 and nothing removed; otherwise every unused name is removed and their number returned |
| StorageService.ExhibitionPrefix | src/lib/storage/index.ts:25 | the image type's name when one is given, `image` otherwise; never empty |
| StorageService.ArtistPrefix | src/lib/storage/index.ts:51 | the kind's name when one is given, `image` otherwise; never empty |
| StorageService.ArtworkPrefix | src/lib/storage/index.ts:77 | `primary` exactly for a primary image, `detail` exactly otherwise |
| StorageService.PrefixedPathShape | src/lib/storage/index.ts:24-28 | a prefixed key lies in its folder, starts with prefix + "_" and ends with the file's extension |
| StorageService.UploadExhibitionImage | src/lib/storage/index.ts:19-29 | the upload outcome in the exhibitions bucket under `exhibition_<id>` with the type prefix; a success's path is the prefixed path |
| StorageService.UploadArtistImage | src/lib/storage/index.ts:45-55 | the same in the artists bucket under `artist_<id>` with the kind prefix |
| StorageService.UploadArtworkImage | src/lib/storage/index.ts:71-81 | the same in the artworks bucket under `artwork_<id>` with `primary` or `detail` |
| StorageService.UploadGeneralFile | src/lib/storage/index.ts:97-102 | the upload outcome in the general bucket with a generated, unprefixed name |
| StorageService.UploadMultipleExhibitionImages | src/lib/storage/index.ts:31-38 | the sequential batch upload into `exhibition_<id>`, progress (i + 1, n) per file |
| StorageService.UploadMultipleArtistImages | src/lib/storage/index.ts:57-64 | the sequential batch upload into `artist_<id>` |
| StorageService.UploadMultipleArtworkImages | src/lib/storage/index.ts:83-90 | the sequential batch upload into `artwork_<id>` |
| StorageService.MultipleHasNoPrefix | src/lib/storage/index.ts:31-38 | a batch-uploaded key is folder + "/" + base name + "_": no kind prefix, unlike the single uploads |
| StorageService.SumSizesAppend | src/lib/storage/index.ts:138 | the size sum over two listings is the sum of their sums |
| StorageService.SumSizesBound | src/lib/storage/index.ts:138 | no listed size exceeds the total |
| StorageService.GetBucketSize | src/lib/storage/index.ts:128-144 | (0, 0) when the listing fails; otherwise the total is the sum of the listed sizes and the file count is the listing's length |
| StorageService.CheckBucketHealth | src/lib/storage/index.ts:152-177 | exactly the four buckets are reported, each healthy exactly when its probe lists without error |
| ExhibitionImages.OfType | src/lib/api/exhibition-images.ts:123-129 | a type list holds exactly the input's images of that type |
| ExhibitionImages.TypeRankIsNameOrder | src/lib/api/exhibition-images.ts:75 | ranking the types compares their stored names as text, and two types have one rank only when they are the same |
| ExhibitionImages.TypeThenOrderIsTotalPreorder | src/lib/api/exhibition-images.ts:75 | the order by type name and then display order is a total preorder, so it can sort any list |
| ExhibitionImages.OfTypeInDisplayOrder | src/lib/api/exhibition-images.ts:75-127 | a type list taken from images sorted by type then order is sorted by display order |
| ExhibitionImages.TypeCountsSum | src/lib/api/exhibition-images.ts:103-129 | the six type lists together are as long as the input, since the type is closed |
| ExhibitionImages.FindImage | src/lib/api/exhibition-images.ts:292-298 | a found row is in the table and has the id; nothing is found exactly when no row has it |
| ExhibitionImages.Grouped.Push | src/lib/api/exhibition-images.ts:126-127 | the image is appended to its own type's list and that counter grows by one; every other list, counter, `all` and `total` stay |
| ExhibitionImages.GroupImages | src/lib/api/exhibition-images.ts:103-131 | `all` is the input and `total` its length; each type list is the input filtered to that type in order, and each counter is its list's length |
| ExhibitionImages.GroupCountsSum | src/lib/api/exhibition-images.ts:111-129 | the six counters of a grouping add up to `total` |
| ExhibitionImages.Materialize | src/lib/api/exhibition-images.ts:135-144 | an inserted row carries the fresh id and every column the insert supplies |
| ExhibitionImages.MaterializeAllAt | src/lib/api/exhibition-images.ts:350-353 | a multi-row insert makes one row per record, in order: row i is record i under the i-th id after the first |
| ExhibitionImages.Patch | src/lib/api/exhibition-images.ts:147-157 | an update keeps id, exhibition and URL, and sets each sent column while keeping the others |
| ExhibitionImages.PatchWhere | src/lib/api/exhibition-images.ts:148-153 | the rows with the id are patched, every other row is unchanged, and the length stays |
| ExhibitionImages.Demoted | src/lib/api/exhibition-images.ts:240-244 | the demotion changes no row's id and no table length |
| ExhibitionImages.PosterSwap | src/lib/api/exhibition-images.ts:238-259 | afterwards the exhibition's posters are exactly the target when it belongs there; the target is a poster with order 0; each other former poster of the exhibition is an artwork image; every other row is untouched |
| ExhibitionImages.SinglePoster | src/lib/api/exhibition-images.ts:238-259 | with distinct ids and the target in the exhibition, exactly one of its images is a poster afterwards |
| ExhibitionImages.NoPosterWhenElsewhere | src/lib/api/exhibition-images.ts:240-253 | a target of another exhibition is still promoted by id, leaving this exhibition with no poster |
| ExhibitionImages.PosterImage | src/lib/api/exhibition-images.ts:223-235 | null exactly when the exhibition has no poster; otherwise one of its posters with the smallest display order |
| ExhibitionImages.Reordered | src/lib/api/exhibition-images.ts:214-220 | the updates, applied one id after the other, keep the table's length |
| ExhibitionImages.ReorderedSpec | src/lib/api/exhibition-images.ts:214-220 | with distinct ids and an order for each, the row with `imageIds[k]` gets `newOrders[k]`, and rows with unlisted ids are unchanged |
| ExhibitionImages.ReorderedKeepsRest | src/lib/api/exhibition-images.ts:215-217 | reordering changes nothing but display orders |
| ExhibitionImages.ReorderedHasImage | src/lib/api/exhibition-images.ts:215-217 | reordering keeps which ids have a row |
| ExhibitionImages.PatchNoChange | src/lib/api/exhibition-images.ts:216 | an update without a column (an id past the orders) leaves the table as it was |
| ExhibitionImages.CopySource | src/lib/api/exhibition-images.ts:327-336 | the source is exactly the source exhibition's images, narrowed to the listed types only when the list is non-empty |
| ExhibitionImages.CopyRecords | src/lib/api/exhibition-images.ts:342-348 | one new record per source image, for the target exhibition, with the same URL, alt text, order and type |
| ExhibitionImages.UploadAlt | src/lib/api/exhibition-images.ts:199 | a non-empty alt text is kept; a missing or empty one becomes the type's label, a space and index + 1 |
| ExhibitionImages.UploadOrder | src/lib/api/exhibition-images.ts:200 | a given display order is kept, 0 included; a missing one becomes the index |
| ExhibitionImages.UploadKeyIndex | src/lib/api/exhibition-images.ts:178 | the entry's index can be read back from its key: the text before the first dot of the fourth `_`-piece |
| ExhibitionImages.UploadKeysDistinct | src/lib/api/exhibition-images.ts:176-178 | two positions of one batch never share a key, whatever the clock, types and file names |
| ExhibitionImages.ExhibitionImageService.ImagesOf | src/lib/api/exhibition-images.ts:58-67 | exactly the exhibition's images, of the one type when a type is given |
| ExhibitionImages.ExhibitionImageService.ImagesByType | src/lib/api/exhibition-images.ts:58-77 | with `sort_by: 'image_type'`: a permutation of the exhibition's images, sorted by type name and then by display order |
| ExhibitionImages.ExhibitionImageService.GetGroupedByType | src/lib/api/exhibition-images.ts:97-132 | the grouping of the exhibition's images in type-then-order sequence: `all` and `total`, each type list a permutation of that type's images sorted by display order, and each counter its list's length |
| ExhibitionImages.ExhibitionImageService.Create | src/lib/api/exhibition-images.ts:135-144 | one row with a fresh id is appended and returned |
| ExhibitionImages.ExhibitionImageService.Update | src/lib/api/exhibition-images.ts:147-157 | the rows with the id are patched; the call fails, changing nothing, exactly when no row has the id, and otherwise returns the patched row |
| ExhibitionImages.ExhibitionImageService.Delete | src/lib/api/exhibition-images.ts:160-167 | exactly the rows with the id are removed |
| ExhibitionImages.ExhibitionImageService.SetPosterImage | src/lib/api/exhibition-images.ts:238-259 | the table is demoted then promoted; the call fails exactly when no row has the target id, and otherwise returns the poster with order 0 |
| ExhibitionImages.ExhibitionImageService.ReorderImages | src/lib/api/exhibition-images.ts:214-220 | every update is applied; the batch fails exactly when some listed id has no row |
| ExhibitionImages.ExhibitionImageService.GetImageStats | src/lib/api/exhibition-images.ts:262-287 | the total is the exhibition's image count and the map has exactly the six type names, each counting that type's images |
| ExhibitionImages.ExhibitionImageService.DeleteImageWithStorage | src/lib/api/exhibition-images.ts:290-317 | a missing row fails with nothing changed; otherwise the row is deleted and the object named by the URL's last segment is removed, storage failure or not |
| ExhibitionImages.ExhibitionImageService.DeleteImageAtStoredPath | src/lib/utils/upload.ts:148-163 | the corrected delete: the row goes as in `deleteImageWithStorage`, and the object removed is the one at the path the URL names, so a file an upload stored under a folder path is gone when storage reports no error |
| ExhibitionImages.ExhibitionImageService.BulkDelete | src/lib/api/exhibition-images.ts:290-323 | exactly the rows with a listed id are removed; storage loses exactly the keys of the bulk removal (each listed id's row, the first time the id is listed, removes the URL's last segment from the exhibitions bucket when that removal reports no error); the batch fails exactly when some deletion finds no row |
| ExhibitionImages.BulkRemovedKeysExactly | src/lib/api/exhibition-images.ts:320-323 | a key is among a bulk delete's removed keys exactly when some deletion of the batch removes it |
| ExhibitionImages.RemovedAtMeans | src/lib/api/exhibition-images.ts:300-308 | deletion j removes a key exactly when its id is listed for the first time, has a row, its removal reports no error, and the key is that row's non-empty last URL segment in the exhibitions bucket |
| ExhibitionImages.BulkRemovedKeysHaveNoFolder | src/lib/api/exhibition-images.ts:301 | every key a bulk delete removes lies in the exhibitions bucket and has no `/`, so an object stored under a folder path is never removed |
| ExhibitionImages.ExhibitionImageService.CopyImages | src/lib/api/exhibition-images.ts:326-357 | nothing is inserted for an empty source; otherwise one new row per source image is appended and returned |
| ExhibitionImages.ExhibitionImageService.UploadImages | src/lib/api/exhibition-images.ts:170-211 | the results, store and table are those of the entry-by-entry upload fold, and the batch fails with the first failure |
| ExhibitionImages.UploadBatch | src/lib/api/exhibition-images.ts:176-208 | one result per entry; the store only grows; exactly the successful rows are appended, one id each |
| ExhibitionImages.UploadBatchOtherKeys | src/lib/api/exhibition-images.ts:182-184 | a key no entry uses is in the store afterwards exactly when it was before |
| ExhibitionImages.UploadBatchResult | src/lib/api/exhibition-images.ts:176-208 | entry i fails with its storage error, or with an existing key, or else stores its object and records its row with the default alt and order |
| ExhibitionImages.HasImageFiltered | src/lib/api/exhibition-images.ts:320-323 | a row survives a bulk delete exactly when its id is not listed |
| ImageManager.PositionOf | src/components/exhibitions/ExhibitionImageManager.tsx:186 | -1 exactly when no image of the group has the id; otherwise the first position holding it |
| ImageManager.MoveTarget | src/components/exhibitions/ExhibitionImageManager.tsx:185-193 | no neighbour exactly when the image is not in its group, is first and moves up, or is last and moves down; otherwise the position before or after it |
| ImageManager.MoveNeighbourOrder | src/components/exhibitions/ExhibitionImageManager.tsx:185-193 | in a group sorted by display order, the neighbour moved up to has no larger order and the one moved down to no smaller order |
| ImageManager.MoveFollowsDisplayOrder | src/components/exhibitions/ExhibitionImageManager.tsx:69-193 | an image stored first but with order 1 comes after one with order 0, so moving it up targets the first position |
| ImageManager.SwapSpec | src/components/exhibitions/ExhibitionImageManager.tsx:196-200 | the two updates exchange exactly the two images' display orders and change nothing else |
| ImageManager.CanMoveByPosition | src/components/exhibitions/ExhibitionImageManager.tsx:188-190 | a press moves the image up exactly when it is not first, and down exactly when it is not last |
| ImageManager.MoveFlagsAsWrittenDisagree | src/components/exhibitions/ExhibitionImageManager.tsx:435-436 | with orders 0, 2, 3 the middle image's down button is off though it can move; with orders 1, 2 the first image's up button is on though a press does nothing |
| ImageManager.MoveFlagsAgreeWhenDense | src/components/exhibitions/ExhibitionImageManager.tsx:435-436 | when the orders are 0, 1, 2, … in group order, the order-based flags equal the positional ones |
| ImageManager.ManagerRecords | src/components/exhibitions/ExhibitionImageManager.tsx:115-126 | at most one insert per successful upload |
| ImageManager.ManagerRecordsNumbered | src/components/exhibitions/ExhibitionImageManager.tsx:116-124 | when every success has a URL, success k gets alt `<label> <k+1>`, the picked type and order group size + k |
| ImageManager.FilteredTypeOptions | src/components/exhibitions/ExhibitionImageManager.tsx:226-228 | exactly the options whose value is allowed, drawn from the option list |
| ImageManager.DefaultOffersAll | src/components/exhibitions/ExhibitionImageManager.tsx:39 | with the default allowed types every option is offered, in list order |
| ImageManager.InsertRecords | src/components/exhibitions/ExhibitionImageManager.tsx:116-128 | the table gains exactly the records for the successes with a URL, in order, with consecutive ids |
| ImageManager.ExhibitionImageManager.constructor | src/components/exhibitions/ExhibitionImageManager.tsx:43-51 | nothing loaded, the first allowed type picked, no files, not uploading |
| ImageManager.ExhibitionImageManager.LoadImages | src/components/exhibitions/ExhibitionImageManager.tsx:69-88 | the images are the exhibition's images sorted by type then display order, read afresh; each group is that type's images in display order; the rest of the state stays |
| ImageManager.ExhibitionImageManager.HandleFileSelect | src/components/exhibitions/ExhibitionImageManager.tsx:91-94 | the picked files are the given ones and nothing else changes |
| ImageManager.ExhibitionImageManager.RemoveFile | src/components/exhibitions/ExhibitionImageManager.tsx:222-224 | exactly the i-th picked file goes and the others keep their order; an index outside the list drops nothing |
| ImageManager.ExhibitionImageManager.HandleUpload | src/components/exhibitions/ExhibitionImageManager.tsx:97-145 | nothing happens without picked files; otherwise the files go to `exhibition_<id>/<type>`, the successes are recorded, the images reloaded and the picks cleared, and uploading ends |
| ImageManager.ExhibitionImageManager.MoveImage | src/components/exhibitions/ExhibitionImageManager.tsx:184-207 | a move that does nothing issues no update; otherwise the display orders of the image and its neighbour in the group are swapped; when both updates find their row the images are reloaded in type-then-order sequence and each group is that type's reloaded images in display order; when one finds no row an alert is shown and the loaded images and groups stay as they were |
| ImageManager.UpdateBoth | src/components/exhibitions/ExhibitionImageManager.tsx:196-200 | the two updates leave the table swapped as `SwapSpec` describes, and both succeed exactly when both ids have a row |
| Artworks.NewArtwork | src/lib/api/artworks.ts:144-156 | the inserted row carries the sent fields and the fresh id, and is featured exactly when `is_featured` was sent as true |
| Artworks.PatchArtwork | src/lib/api/artworks.ts:159-169 | a sent field replaces the stored one, an unsent one is kept, the id and slug never change, and an empty update is the identity |
| Artworks.StoredImagesAt | src/lib/api/artworks.ts:182-199 | consecutive image inserts give one row per record, in order: row k is record k under the k-th id after the first |
| Artworks.PatchImage | src/lib/api/artworks.ts:241-255 | the sent metadata replaces the stored values; id, artwork and URL never change |
| Artworks.ImageKeyIndex | src/lib/api/artworks.ts:204-205 | the file's index can be read back from its key: the text before the first dot of the third `_`-piece |
| Artworks.ImageKeysDistinct | src/lib/api/artworks.ts:203-205 | two positions of one batch never share a key, whatever the clock reads |
| Artworks.ArtworkService.GetAll | src/lib/api/artworks.ts:45-109 | only stored artworks passing the artist, year and featured filters; without a positive limit every passing artwork; with one, exactly the smaller of the limit and the passing count, taken from the front of the passing artworks |
| Artworks.ArtworkService.GetByArtistId | src/lib/api/artworks.ts:288-290 | exactly the artist's artworks |
| Artworks.ArtworkService.GetFeatured | src/lib/api/artworks.ts:293-295 | only stored featured artworks, a sub-multiset of them; with a positive limit exactly the smaller of the limit and the featured count; a limit of 0 is ignored and every featured artwork is returned |
| Artworks.ArtworkService.ImagesOf | src/lib/api/artworks.ts:51 | exactly the stored images of the artwork |
| Artworks.ArtworkService.Create | src/lib/api/artworks.ts:144-156 | one row, with `is_featured` defaulted to false, is appended and returned; the image table is untouched |
| Artworks.ArtworkService.Update | src/lib/api/artworks.ts:159-169 | the rows with the id are patched; the call fails exactly when no row has the id, and otherwise returns the patched row |
| Artworks.ArtworkService.Delete | src/lib/api/artworks.ts:172-179 | exactly the rows with the id are removed and the image table is untouched |
| Artworks.ArtworkService.CreateImageRecord | src/lib/api/artworks.ts:182-199 | one image row for the artwork is appended and returned |
| Artworks.ArtworkService.UpdateImage | src/lib/api/artworks.ts:241-255 | the images with the id are patched; the call fails exactly when no image has the id |
| Artworks.ArtworkService.DeleteImage | src/lib/api/artworks.ts:258-285 | a missing row fails with nothing changed; otherwise the row is deleted and the object named by the URL's last segment is removed, storage failure or not |
| Artworks.ArtworkService.UploadImages | src/lib/api/artworks.ts:202-238 | the results, store and image table are those of the file-by-file upload fold, and the batch fails with the first failure |
| Artworks.UploadBatch | src/lib/api/artworks.ts:203-235 | one result per file; the store only grows; exactly the successful rows are appended, one id each |
| Artworks.UploadBatchOtherKeys | src/lib/api/artworks.ts:209-211 | a key no file uses is in the store afterwards exactly when it was before |
| Artworks.UploadBatchResult | src/lib/api/artworks.ts:203-235 | file i fails with its storage error, or with an existing key, or else stores its object and records its row |
| Artworks.PrimaryOnlyFirst | src/lib/api/artworks.ts:220-230 | a recorded row has order i, alt text the file name, and is primary exactly when i is 0 |
| ArtworkForms.FormPatch | src/components/forms/ArtworkForm.tsx:88-89 | the update sends the required artist and title always, and the optional fields as filled in |
| ArtworkForms.FormRecords | src/components/forms/ArtworkForm.tsx:106-118 | at most one record per successful upload |
| ArtworkForms.FormRecordsNumbered | src/components/forms/ArtworkForm.tsx:108-117 | when every success has a URL, success i gets its URL, order i, alt `<title> - Image <i+1>`, and is primary exactly when i is 0 |
| ArtworkForms.FormRecordsOnePrimary | src/components/forms/ArtworkForm.tsx:114 | no record but the first is ever primary |
| ArtworkForms.InsertFormRecords | src/components/forms/ArtworkForm.tsx:108-118 | the image table gains exactly the records for the successes with a URL, in order; the artworks are untouched |
| ArtworkForms.ArtworkForm.constructor | src/components/forms/ArtworkForm.tsx:30-51 | a form over the given artwork and services, with no files, not submitting, progress 0 |
| ArtworkForms.ArtworkForm.HandleFileSelect | src/components/forms/ArtworkForm.tsx:69-72 | the picked files are the given ones |
| ArtworkForms.ArtworkForm.RemoveFile | src/components/forms/ArtworkForm.tsx:75-77 | exactly the i-th picked file goes and the others keep their order; an index outside the list drops nothing |
| ArtworkForms.ArtworkForm.Save | src/components/forms/ArtworkForm.tsx:86-92 | when editing an existing artwork, the artwork with its id is patched and a missing id fails; otherwise one artwork is created |
| ArtworkForms.ArtworkForm.OnSubmit | src/components/forms/ArtworkForm.tsx:80-133 | a failed save alerts and keeps the selection; otherwise no storage call without files, else uploads to `artwork_<saved id>` and records the successes; success is reported exactly when no alert is shown; submitting and progress end reset |
| ArtworkGrid.GridParams | src/components/gallery/ArtworkGrid.tsx:40-45 | the featured filter is `true` exactly with `featuredOnly` and absent otherwise; artist and limit are passed through |
| ArtworkGrid.GridListing | src/components/gallery/ArtworkGrid.tsx:40-47 | with `featuredOnly` only featured artworks are shown; without it every artwork of the artist is, featured or not |
| ArtworkGrid.PrimaryImage | src/components/gallery/ArtworkGrid.tsx:120 | the first primary image, else the first image, else none |
| ArtworkGrid.ImageCountBadge | src/components/gallery/ArtworkGrid.tsx:152-156 | a badge exactly when there is more than one image, counting all but one |
| ArtworkGrid.CardLink | src/components/gallery/ArtworkGrid.tsx:199-200 | `/artworks/<slug>`, or `/artworks/<id>` when the slug is missing or empty |
| ArtworkGrid.CardAlt | src/components/gallery/ArtworkGrid.tsx:129 | the image's alt text, or the title when it is missing or empty |
| ArtworkGrid.FormUploadShowsFirst | src/components/gallery/ArtworkGrid.tsx:120 | an artwork saved through the form with uploads shows its first recorded image, which is primary |
| ArtworkGrid.TrimStart | src/components/gallery/ArtworkGrid.tsx:230 | the result is no longer than the input and does not start with whitespace |
| ArtworkGrid.LeadingDigits | src/components/gallery/ArtworkGrid.tsx:230 | the longest prefix of decimal digits |
| ArtworkGrid.DigitsValueOfNat | src/components/gallery/ArtworkGrid.tsx:230 | reading back a number's decimal digits gives the number |
| ArtworkGrid.ParseIntOfNat | src/components/gallery/ArtworkGrid.tsx:230 | `parseInt` reads a written number, with or without a minus sign, and stops at the first non-digit |
| ArtworkGrid.ParseIntNaN | src/components/gallery/ArtworkGrid.tsx:230 | text without leading digits parses to NaN |
| ArtworkGrid.FilterChange | src/components/gallery/ArtworkGrid.tsx:227-235 | an empty query, year or materials becomes undefined; a year is otherwise parsed; featured and sort pass through |
| ArtworkGrid.InitialFiltersEmpty | src/components/gallery/ArtworkGrid.tsx:221-225 | the panel's first report has no filter and sorts by `created_at` |
| ArtworkGrid.FeaturedChoice | src/components/gallery/ArtworkGrid.tsx:297-299 | '' becomes undefined, exactly 'true' becomes true, anything else false |
| ArtworkGrid.FeaturedRoundTrip | src/components/gallery/ArtworkGrid.tsx:296-299 | the select's value and the featured choice are inverse on the three options |
| Exhibitions.NewExhibition | src/lib/api/exhibitions.ts:82-99 | the inserted row carries the sent fields and the fresh id, with the status its dates give at `now`, never draft |
| Exhibitions.CreateIgnoresStatus | src/lib/api/exhibitions.ts:84-89 | a status sent to `create` makes no difference to the row |
| Exhibitions.OrElse | src/lib/api/exhibitions.ts:106-107 | a present, non-empty date is used, otherwise the stored one |
| Exhibitions.PatchExhibition | src/lib/api/exhibitions.ts:112-117 | a sent field replaces the stored one, an unsent one is kept, the id never changes, and an empty update is the identity |
| Exhibitions.UpdatedStatusFitsDates | src/lib/api/exhibitions.ts:103-110 | after an update with a date, the row's status is the one its own dates give at the moment of the update |
| Exhibitions.UpdateWithoutDatesKeepsStatus | src/lib/api/exhibitions.ts:103-110 | an update without dates keeps the status it sends, or the stored one |
| Exhibitions.UpdateWithDateOverridesStatus | src/lib/api/exhibitions.ts:103-108 | with a date, the status the caller sends makes no difference |
| Exhibitions.KeyOrdersArePreorders | src/lib/api/exhibitions.ts:137 | both start-date orders are total preorders, so either can sort any list |
| Exhibitions.ExhibitionService.GetAll | src/lib/api/exhibitions.ts:10-42 | only stored rows passing the status filter, newest start first; without limit and offset each passing row as often as stored, and every row for 'all' or no status; a limit caps the length |
| Exhibitions.ExhibitionService.GetById | src/lib/api/exhibitions.ts:44-53 | none exactly when no row has the id; otherwise a stored row with it |
| Exhibitions.ExhibitionService.GetByStatus | src/lib/api/exhibitions.ts:132-141 | exactly the rows with the status, each as often as stored; scheduled ones by start date ascending, all others descending |
| Exhibitions.ExhibitionService.GetCurrentExhibitions | src/lib/api/exhibitions.ts:143-145 | exactly the live rows |
| Exhibitions.ExhibitionService.GetUpcomingExhibitions | src/lib/api/exhibitions.ts:147-149 | exactly the scheduled rows, soonest start first |
| Exhibitions.ExhibitionService.GetCurrentExhibitionWithPoster | src/lib/api/exhibitions.ts:151-175 | the live row with the latest start when one is live; otherwise the row with the latest end; nothing only for an empty table |
| Exhibitions.ExhibitionService.Create | src/lib/api/exhibitions.ts:82-99 | one row with a fresh id and the derived status is appended and returned |
| Exhibitions.ExhibitionService.Update | src/lib/api/exhibitions.ts:101-121 | an unknown id fails and changes nothing; otherwise the row is patched with the effective update and returned |
| Exhibitions.ExhibitionService.Delete | src/lib/api/exhibitions.ts:123-130 | exactly the rows with the id are removed |
| Newsletter.SingleByEmail | src/lib/api/newsletter.ts:12-16 | with distinct addresses the `.single()` lookup finds the address's row whenever there is one |
| Newsletter.SubscribedIn | src/lib/api/newsletter.ts:150-159 | true only for an address with an active row; false when the lookup finds no row or several; with distinct addresses, true exactly when the address's row is active |
| Newsletter.ReactivateSubscribes | src/lib/api/newsletter.ts:22-31 | reactivating an address's one row keeps addresses distinct and leaves it subscribed |
| Newsletter.ActiveSubscribed | src/lib/api/newsletter.ts:18-20 | an address whose one row is active is subscribed |
| Newsletter.InsertSubscribes | src/lib/api/newsletter.ts:35-48 | adding an active row for a new address keeps addresses distinct and leaves it subscribed |
| Newsletter.Deactivated | src/lib/api/newsletter.ts:51-58 | same rows in the same order; a row is active afterwards exactly when it was and has another address; no other field changes |
| Newsletter.DeactivatedIdempotent | src/lib/api/newsletter.ts:51-58 | unsubscribing twice is unsubscribing once |
| Newsletter.NewestIsTotalPreorder | src/lib/api/newsletter.ts:64 | newest-first by `subscribed_at` is a total preorder, so it can sort any list |
| Newsletter.NewsletterService.constructor | src/lib/api/newsletter.ts:8 | an empty table |
| Newsletter.NewsletterService.Subscribe | src/lib/api/newsletter.ts:10-49 | an active address is refused and nothing changes; an inactive one is reactivated in place without an insert; a new one gets one active row; afterwards distinct addresses stay distinct and the address is subscribed |
| Newsletter.NewsletterService.Unsubscribe | src/lib/api/newsletter.ts:51-58 | the address's rows become inactive, none is removed, and the address is no longer subscribed |
| Newsletter.NewsletterService.GetAll | src/lib/api/newsletter.ts:60-68 | every row as often as stored, newest subscription first |
| Newsletter.NewsletterService.GetActive | src/lib/api/newsletter.ts:70-79 | exactly the active rows, newest subscription first |
| Newsletter.NewsletterService.ExportSubscribers | src/lib/api/newsletter.ts:133-148 | the active rows when `activeOnly`, otherwise every row; newest subscription first |
| Newsletter.NewsletterService.GetStats | src/lib/api/newsletter.ts:81-113 | total is the row count, active the active count, and inactive (total less active) the inactive count |
| Newsletter.NewsletterService.Delete | src/lib/api/newsletter.ts:115-122 | exactly the rows with the id are removed |
| Newsletter.NewsletterService.BulkUpdate | src/lib/api/newsletter.ts:124-131 | the same fields are set on exactly the listed rows; every other row is unchanged |
| News.NewPost | src/lib/api/news.ts:108-113 | the insert carries the form's fields, the new id and the creation time; no image list means an empty one; the post is visible unless the form says false |
| News.SingleFieldUpdates | src/lib/api/news.ts:146-148 | setting the visibility changes that flag and nothing else; setting the images changes the image list and nothing else |
| News.SyncedPost | src/lib/api/news.ts:257-275 | an updated import keeps the post's id, Instagram id, visibility and creation time, takes the import's images, link and date, and its caption when it has one; a new import is a visible post with every field of the import |
| News.NewsOrdersArePreorders | src/lib/api/news.ts:52-56 | newest creation first and latest post date first (undated posts first) are total preorders, so either can sort any list |
| News.NewsPostService.constructor | src/lib/api/news.ts:33 | an empty table with consistent ids |
| News.NewsPostService.GetAll | src/lib/api/news.ts:34-71 | only stored posts of the requested visibility, sorted by the chosen date, newest first; without paging, every such post as often as stored; with a limit and no offset, at most that many |
| News.NewsPostService.GetVisible | src/lib/api/news.ts:73-75 | only visible posts, whatever the parameters say; without paging, every visible post |
| News.NewsPostService.GetHidden | src/lib/api/news.ts:77-79 | only hidden posts, whatever the parameters say; without paging, every hidden post |
| News.NewsPostService.GetById | src/lib/api/news.ts:81-90 | fails with no row exactly when no post has the id; otherwise a stored post with the id |
| News.NewsPostService.GetByInstagramId | src/lib/api/news.ts:92-106 | succeeds exactly when one post has the Instagram id (a visible one when asked), and then returns it; fails with several matches and with none |
| News.NewsPostService.GetRecent | src/lib/api/news.ts:158-173 | the smaller of `limit` and the number of eligible posts, a sub-multiset of them, latest post date first, and no eligible post left out is later than one returned |
| News.NewsPostService.GetFeatured | src/lib/api/news.ts:175-178 | the same as the recent posts: the `limit` latest eligible posts, sorted, with no later post left out |
| News.LatestPosts | src/lib/api/news.ts:158-173 | the first `limit` posts by descending post date are sorted and no eligible post left out is later than one of them |
| News.NewsPostService.GetByDateRange | src/lib/api/news.ts:197-213 | exactly the stored posts dated between the two dates (both included), visible when asked, latest first |
| News.NewsPostService.GetStats | src/lib/api/news.ts:215-241 | the total, visible and hidden counts, and visible plus hidden is the total |
| News.NewsPostService.Create | src/lib/api/news.ts:108-123 | one post with the next id and the defaults of the insert is appended; ids stay unique |
| News.NewsPostService.Update | src/lib/api/news.ts:125-135 | with no post of that id it fails and nothing changes; otherwise the sent fields are merged into the post, which is returned; ids stay unique |
| News.NewsPostService.SetVisibility | src/lib/api/news.ts:146-148 | the posts with the id change only their visibility, every other post is unchanged, and it fails exactly when no post has the id |
| News.NewsPostService.Hide | src/lib/api/news.ts:150-152 | the posts with the id become hidden and nothing else changes |
| News.NewsPostService.Show | src/lib/api/news.ts:154-156 | the posts with the id become visible and nothing else changes |
| News.NewsPostService.UpdateImages | src/lib/api/news.ts:243-245 | the posts with the id change only their image list and nothing else changes |
| News.NewsPostService.SyncFromInstagramAsWritten | src/lib/api/news.ts:247-276 | a post never imported is never created: the lookup fails and nothing changes; with exactly one stored post of the id that post is patched with the import's fields and returned; with several the call fails and nothing changes |
| News.NewsPostService.SyncFromInstagram | src/lib/api/news.ts:247-276 | the one post with the Instagram id takes the import's fields; with none, a visible post is created from the import; with several, it fails and nothing changes |
| News.NewsPostService.Delete | src/lib/api/news.ts:137-144 | exactly the posts with the id are removed, the rest keep their order, and ids stay unique |
| Videos.NewVideo | src/lib/api/videos.ts:114-118 | the insert carries every field of the form, the new id and the creation time; visible unless the form says false |
| Videos.SingleFieldUpdates | src/lib/api/videos.ts:188-194 | setting the category changes only the category; setting the visibility changes only the flag |
| Videos.CreatedDescendingIsTotalPreorder | src/lib/api/videos.ts:84 | newest creation first is a total preorder, so it can sort any list |
| Videos.VisibleSorted | src/lib/api/videos.ts:151-173 | exactly the stored visible videos passing the test, as many as pass, newest first |
| Videos.Present | src/lib/api/videos.ts:236 | exactly the categories that are not null |
| Videos.FirstOccurrencesKeepEach | src/lib/api/videos.ts:237 | keeping the first occurrence of each value keeps every value and repeats none |
| Videos.VisibleCategoryColumn | src/lib/api/videos.ts:226-235 | the categories of exactly the visible videos |
| Videos.FeaturedPrefix | src/lib/api/videos.ts:175-186 | the first `limit` visible videos newest first are sorted, and no visible video left out is newer than one of them |
| Videos.ListedCategoriesHaveVideos | src/lib/api/videos.ts:163-241 | a category is listed exactly when listing by that category shows a video |
| Videos.VideoService.constructor | src/lib/api/videos.ts:41 | an empty table with consistent ids |
| Videos.VideoService.GetAll | src/lib/api/videos.ts:42-90 | only stored videos passing the category, exhibition, artist and visibility filters, newest first; without paging, every such video as often as stored; with a limit and no offset, at most that many |
| Videos.VideoService.GetById | src/lib/api/videos.ts:92-101 | fails with no row exactly when no video has the id; otherwise a stored video with the id |
| Videos.VideoService.GetByYoutubeId | src/lib/api/videos.ts:103-112 | succeeds exactly when one stored video has the YouTube id, and returns it |
| Videos.VideoService.GetByArtist | src/lib/api/videos.ts:151-161 | exactly the visible videos related to the artist, newest first |
| Videos.VideoService.GetByCategory | src/lib/api/videos.ts:163-173 | exactly the visible videos of the category, newest first |
| Videos.VideoService.GetByExhibition | src/lib/api/videos.ts:243-253 | exactly the visible videos related to the exhibition, newest first |
| Videos.VideoService.GetFeatured | src/lib/api/videos.ts:175-186 | the smaller of `limit` and the number of visible videos, a sub-multiset of the stored visible videos, newest first, and no visible video left out is newer than one returned |
| Videos.VideoService.GetStats | src/lib/api/videos.ts:213-223 | the total is the number of stored videos |
| Videos.VideoService.GetAllCategories | src/lib/api/videos.ts:225-241 | exactly the categories of visible videos, each once, in strictly ascending string order |
| Videos.VideoService.Create | src/lib/api/videos.ts:114-128 | one video with the next id and the insert's defaults is appended; ids stay unique |
| Videos.VideoService.Update | src/lib/api/videos.ts:130-140 | with no video of that id it fails and nothing changes; otherwise the sent fields are merged into the video, which is returned; ids stay unique |
| Videos.VideoService.UpdateCategory | src/lib/api/videos.ts:188-190 | the videos with the id change only their category; it fails exactly when no video has the id |
| Videos.VideoService.SetVisibility | src/lib/api/videos.ts:192-194 | the videos with the id change only their visibility; it fails exactly when no video has the id |
| Videos.VideoService.Delete | src/lib/api/videos.ts:142-149 | exactly the videos with the id are removed, the rest keep their order, and ids stay unique |
| Utils.DropSeparators | src/lib/utils.ts:39 | a suffix of the text that does not start with white space, `_` or `-` |
| Utils.Collapse | src/lib/utils.ts:39 | empty exactly when the text is, and starts with a dash exactly when the text starts with a separator |
| Utils.DropLeadingDashes | src/lib/utils.ts:40 | a suffix of the text that does not start with a dash |
| Utils.DropTrailingDashes | src/lib/utils.ts:40 | a prefix of the text that does not end with a dash |
| Utils.CollapseChars | src/lib/utils.ts:38-39 | text made of slug characters and separators collapses to slug characters only |
| Utils.CollapseNoDoubleDash | src/lib/utils.ts:39 | after collapsing, no two dashes follow each other |
| Utils.SlugTail | src/lib/utils.ts:35-41 | dropping the first character of slug-shaped text keeps its character and dash rules |
| Utils.CollapseDash | src/lib/utils.ts:39 | a single dash not followed by a separator stays one dash |
| Utils.CollapseFixes | src/lib/utils.ts:39 | collapsing text with slug characters only and no double dash changes nothing |
| Utils.TrimDashesShape | src/lib/utils.ts:40 | trimming such text gives a slug: no dash at either end |
| Utils.SlugifyIsSlug | src/lib/utils.ts:35-41 | every `slugify` output has only ASCII lower-case letters, digits, Hangul syllables and dashes, no dash at either end and no two dashes in a row |
| Utils.SlugifyFixes | src/lib/utils.ts:35-41 | `slugify` leaves a slug unchanged |
| Utils.SlugifyIdempotent | src/lib/utils.ts:35-41 | `slugify` applied twice is `slugify` applied once |
| Utils.LastChars | src/lib/utils.ts:45 | the last eight characters of the id, or the whole id when it is shorter |
| Utils.GenerateSlug | src/lib/utils.ts:43-46 | without a non-empty id, the slug of the title; with one, the slug of the title, a dash, and the last eight characters of the id |
| Utils.GenerateSlugSuffix | src/lib/utils.ts:43-46 | with an id the slug is one dash and at most eight characters longer than the title's, and that tail ends the id |
| Utils.ExhibitionStatusAt | src/lib/utils.ts:48-56 | never draft; scheduled exactly when now is before the start; archived exactly when not before the start and the end is before now; live otherwise |
| Utils.StatusOfOrderedDates | src/lib/utils.ts:48-56 | with ordered valid dates: scheduled exactly before the start, live exactly from the start to the end with both ends included, archived exactly after the end |
| Utils.StatusOfInvalidDates | src/lib/utils.ts:50-55 | dates that do not parse never compare, so the status is live |
| Utils.StatusTextDistinct | src/lib/utils.ts:58-66 | the four statuses have four different labels |
| Utils.LineEnd | src/lib/utils.ts:69 | the length of the first line: no line terminator before it, and one at it if it is not the end |
| Utils.MarkerAt | src/lib/utils.ts:69 | a marker that matches at a position lies inside the text and contains a `/`, `?` or `&` |
| Utils.LastMarker | src/lib/utils.ts:69 | a marker of the returned length matches at the returned position, which is not past the bound |
| Utils.LastMarkerIsLast | src/lib/utils.ts:69 | no marker matches between the returned position and the bound, and none up to the bound when nothing is returned: the greedy prefix takes the last match |
| Utils.IdRun | src/lib/utils.ts:69 | the longest prefix free of `#`, `&` and `?`; it may run past a line end, as a negated class matches a newline |
| Utils.ExtractYouTubeId | src/lib/utils.ts:68-72 | a result is exactly eleven UTF-16 code units long, with no `#`, `&` or `?` |
| Utils.NoMarkerIn | src/lib/utils.ts:69 | no marker starts inside text without `/`, `?` and `&` |
| Utils.ShortLinkPrefixNoMarker | src/lib/utils.ts:69 | inside the `youtu.be/` of a short link, past its start, no marker matches |
| Utils.ShortLinkId | src/lib/utils.ts:68-72 | a short link `https://youtu.be/` with an id of eleven UTF-16 code units gives that id back |
| Utils.IdRunAll | src/lib/utils.ts:69 | text without `#`, `&` and `?` is its own run, line ends included |
| Utils.YouTubeThumbnail | src/lib/utils.ts:74-76 | the URL starts with the thumbnail host and the video id and ends with the quality and `default.jpg` |
| Utils.FifthPiece | src/lib/utils.ts:75 | splitting a slash-joined path whose first five pieces have no slash gives those pieces back |
| Utils.ThumbnailNamesVideo | src/lib/utils.ts:74-76 | the video id is the fifth slash-separated piece of the thumbnail URL |
| Utils.TruncateText | src/lib/utils.ts:78-81 | a text that fits is returned unchanged; a longer one becomes its first `maxLength` characters and `...`, so its length is `maxLength` plus three |
| Utils.TruncateIdempotent | src/lib/utils.ts:78-81 | truncating twice is truncating once |
| Utils.EmailShapeOnlyIf | src/lib/utils.ts:83-86 | an address the pattern accepts has no white space, exactly one `@` that is not first, and a dot after it that is neither first nor last there |
| Utils.EmailShapeIf | src/lib/utils.ts:83-86 | an address of that shape is accepted by the pattern |
| Utils.EmailShape | src/lib/utils.ts:83-86 | the pattern accepts an address exactly when it has that shape |
| Queries.WindowStart | src/lib/api/news.ts:63-65 | the window starts at the offset, or at the end when the offset is past it |
| Queries.Window | src/lib/api/news.ts:59-65 | a contiguous run of the rows starting at the offset; as many rows as are left, cut to the limit (ten when only an offset is given); with neither all rows |
| Queries.SortedSlice | src/lib/api/news.ts:52-65 | a contiguous part of a sorted list is sorted |
| Queries.Listing | src/lib/api/news.ts:34-71 | only stored rows that pass the filter; without paging, a permutation of all of them; paged, as many as the page holds of the rows that pass |
| Queries.ListingSorted | src/lib/api/news.ts:52-65 | a listing is sorted by its order |
| Queries.ElementsOfSlice | src/lib/api/news.ts:59-65 | every row of a window is a stored row |
| Queries.Top | src/lib/api/news.ts:158-173 | `order(...).limit(n)`: the smaller of n and the number of kept rows, a sub-multiset of them, each a stored kept row |
| Queries.TopSorted | src/lib/api/news.ts:162-163 | under a total preorder the top rows are sorted |
| Queries.TopComesFirst | src/lib/api/news.ts:162-163 | under a total preorder a kept row left out of the top rows comes no earlier than any of them |
| ExhibitionImageSchemas.ImageTypeSchemaExact | src/lib/validations/exhibition-image.ts:5-12 | the enum accepts exactly the six stored image type names, each naming its type, in the types' order |
| ExhibitionImageSchemas.OptionsMatchTypes | src/lib/validations/exhibition-image.ts:92-99 | the form's six type options follow the enum's order and carry the service's labels |
| ExhibitionImageSchemas.ReorderIsUpdates | src/lib/validations/exhibition-image.ts:41-46 | a reorder request is accepted exactly when it has as many orders as ids, at least one, each id a UUID and each order one the single-image update accepts |
| ExhibitionImageSchemas.UpdateAllOptional | src/lib/validations/exhibition-image.ts:24-28 | an empty update is accepted; a given order must be a non-negative integer; a given type must be one of the six |
| ExhibitionImageSchemas.FormNarrowsUpdate | src/lib/validations/exhibition-image.ts:65-69 | what the edit form accepts the update schema accepts; an alt text over 255 UTF-16 code units or an unknown type is refused |
| ExhibitionImageSchemas.BulkEntriesAreCreates | src/lib/validations/exhibition-image.ts:14-38 | a bulk upload is accepted exactly when it has at least one entry and each entry, with a valid URL, is an accepted single create for the exhibition |
| ExhibitionImageSchemas.SearchLimitApplied | src/lib/validations/exhibition-image.ts:49-54 | an accepted search's limit is between 1 and 100, never the 0 the service's `if (params.limit)` would skip; a given type filter names a stored image type; a limit of 0 is refused |
| ArtworkSchemas.CreateIsUpdateWithRequired | src/lib/validations/artwork.ts:4-30 | the create schema accepts an artwork exactly when the partial update schema accepts it as an update with every field sent; acceptance this year stays accepted in later years |
| ArtworkSchemas.YearRejections | src/lib/validations/artwork.ts:9-13 | a fractional year, 1799 and next year are refused |
| ArtworkSchemas.UpdateIsPartial | src/lib/validations/artwork.ts:30 | the update schema accepts an empty update and every artwork the create schema accepts |
| ArtworkSchemas.SearchYearWiderThanCreate | src/lib/validations/artwork.ts:4-42 | the search takes a year such as 1799 that the create schema refuses for an artwork |
| ArtworkSchemas.ImageAltCap | src/lib/validations/artwork.ts:45-61 | both image schemas refuse an alt text over 200 UTF-16 code units and agree on every alt text |
| ArtworkSchemas.ImageFileSchemaNarrower | src/lib/validations/artwork.ts:72-83 | a file the schema accepts passes the upload helper's check too, but a GIF, or a 20 MiB PNG, passes that check and not the schema |
| ArtworkSchemas.MultipleUploadBounds | src/lib/validations/artwork.ts:86-90 | an accepted upload has 1 to 10 files, each passing the upload helper's check; an empty one is refused |
| ArtworkSchemas.OptionsMatchSchema | src/lib/validations/artwork.ts:108-119 | the sort select offers exactly the search schema's keys in its order; the featured select offers true then false |
| ExhibitionSchemas.DateIssue | src/lib/validations/exhibition.ts:12-19 | no issue exactly when the start is not after the end; otherwise the issue is on `end_date` with the date-order message |
| ExhibitionSchemas.DateOrderRefinement | src/lib/validations/exhibition.ts:12-19 | once the fields pass, valid dates are accepted exactly when the start is not after the end; an unreadable date is refused with the issue on `end_date`; equal dates are accepted |
| ExhibitionSchemas.AcceptedStatusFollowsCalendar | src/lib/validations/exhibition.ts:12-19 | an accepted exhibition's derived status is scheduled before its start, live from its start to its end, archived after its end |
| ExhibitionSchemas.UpdateHasNoDateOrder | src/lib/validations/exhibition.ts:21-30 | the update schema accepts every exhibition whose fields pass, including one with its end before its start that the create schema refuses |
| ExhibitionSchemas.CreateBounds | src/lib/validations/exhibition.ts:3-11 | an accepted exhibition has a title of 1 to 200, an artist of 1 to 100 and a slug of 1 to 100 UTF-16 code units, a known status when given, and a URL or nothing as its poster |
| ExhibitionSchemas.ParseStatus | src/lib/validations/exhibition.ts:9 | a status read from the enum's text is the one with that name |
| ExhibitionSchemas.StatusNamesParse | src/lib/validations/exhibition.ts:9 | the enum accepts exactly the four status names, and each name reads back as its status |
| ExhibitionSchemas.FractionalOrderAccepted | src/lib/validations/exhibition.ts:32-37 | this image schema accepts a fractional order such as 1.5 |
| ExhibitionSchemas.SearchStatuses | src/lib/validations/exhibition.ts:41 | the search accepts 'all' on top of the four statuses, and 'all' is not a status |
| ArtistSchemas.YearIsLengthOnly | src/lib/validations/artist.ts:3-7 | a year is any text of four UTF-16 code units: "2024", "abcd" and two astral digits pass, "24" and "20240" do not; an empty school or award title is refused |
| ArtistSchemas.EntryIsAwardWithType | src/lib/validations/artist.ts:9-20 | an exhibition entry is accepted exactly when its title, year and venue form an accepted award and its type, when given, is solo or group |
| ArtistSchemas.ArtistBounds | src/lib/validations/artist.ts:22-32 | an accepted artist has a name and a slug of 1 to 100 UTF-16 code units and a biography of at most 2000; the update schema accepts an empty update and every accepted artist |
| ArtistSchemas.BadEntrySpoilsList | src/lib/validations/artist.ts:26 | one bad education entry makes both the create and the update refuse the list |
| ArtistSchemas.SearchAllowsFractions | src/lib/validations/artist.ts:41-46 | the artist search accepts a fractional limit and offset that the artwork search refuses |
| NewsletterSchemas.SubscriptionNarrowsUnsubscribe | src/lib/validations/newsletter.ts:3-15 | an address that may subscribe may unsubscribe; a valid address over 255 UTF-16 code units may only unsubscribe; the empty address may not subscribe |
| NewsletterSchemas.ParseBulkAction | src/lib/validations/newsletter.ts:18 | accepted exactly when it is one of the three action names, and then as the action of that name |
| NewsletterSchemas.BulkActionRoundTrip | src/lib/validations/newsletter.ts:18 | every action's name is one of the three and reads back as the action |
| NewsletterSchemas.BulkActionBounds | src/lib/validations/newsletter.ts:17-20 | an accepted bulk action names a known action and at least one 36-character id; an empty selection is refused |
| ExhibitionStores.QueryIgnoresCase | src/stores/exhibitionStore.ts:91-97 | the text filter gives the same answer for a query and its lower-cased form |
| ExhibitionStores.NoFilterShowsAll | src/stores/exhibitionStore.ts:84-101 | under 'all' with an empty query every record passes, in its order |
| ExhibitionStores.ExhibitionStore.constructor | src/stores/exhibitionStore.ts:44-50 | an empty list, nothing selected, not loading, no error, 'all' and an empty query |
| ExhibitionStores.ExhibitionStore.SetExhibitions | src/stores/exhibitionStore.ts:53 | the list is replaced; every other field stays |
| ExhibitionStores.ExhibitionStore.AddExhibition | src/stores/exhibitionStore.ts:55-58 | the record is prepended, the list grows by one, and the slug lookup now finds this record |
| ExhibitionStores.ExhibitionStore.UpdateExhibition | src/stores/exhibitionStore.ts:60-65 | same length and order; the records with the id get the sent fields merged in; every other record and field stays |
| ExhibitionStores.ExhibitionStore.RemoveExhibition | src/stores/exhibitionStore.ts:67-70 | exactly the records with the id are gone; the rest stay in their order |
| ExhibitionStores.ExhibitionStore.SetSelectedExhibition | src/stores/exhibitionStore.ts:72 | only the selection changes |
| ExhibitionStores.ExhibitionStore.SetLoading | src/stores/exhibitionStore.ts:73 | only the loading flag changes |
| ExhibitionStores.ExhibitionStore.SetError | src/stores/exhibitionStore.ts:74 | only the error changes |
| ExhibitionStores.ExhibitionStore.SetStatusFilter | src/stores/exhibitionStore.ts:77 | only the status filter changes |
| ExhibitionStores.ExhibitionStore.SetSearchQuery | src/stores/exhibitionStore.ts:78 | only the query changes |
| ExhibitionStores.ExhibitionStore.GetFilteredExhibitions | src/stores/exhibitionStore.ts:81-102 | a record is shown exactly when it is stored and passes the status test and the case-insensitive text test; shown records keep their order; with no filter the whole list |
| ExhibitionStores.ExhibitionStore.GetExhibitionBySlug | src/stores/exhibitionStore.ts:104-107 | none exactly when no record has the slug; otherwise the first record that has it |
| ExhibitionStores.ExhibitionStore.Reset | src/stores/exhibitionStore.ts:110-118 | the store is back in its first state |
| ArtistStores.PatchArtist | src/stores/artistStore.ts:63 | the id stays; a sent field replaces the stored one and an unsent one is kept; an empty update changes nothing |
| ArtistStores.OrdersArePreorders | src/stores/artistStore.ts:96-101 | given a collation that is a total preorder, both list orders (by name, newest first) can sort any list |
| ArtistStores.ArtistStore.constructor | src/stores/artistStore.ts:44-50 | an empty list, nothing selected, not loading, no error, an empty query and the name order |
| ArtistStores.ArtistStore.SetArtists | src/stores/artistStore.ts:53 | the list is replaced; every other field stays |
| ArtistStores.ArtistStore.AddArtist | src/stores/artistStore.ts:55-58 | the record is prepended and the slug lookup now finds this record |
| ArtistStores.ArtistStore.UpdateArtist | src/stores/artistStore.ts:60-65 | same length and order; the records with the id get the sent fields merged in; every other record and field stays |
| ArtistStores.ArtistStore.RemoveArtist | src/stores/artistStore.ts:67-70 | exactly the records with the id are gone; the rest stay in their order |
| ArtistStores.ArtistStore.SetSelectedArtist | src/stores/artistStore.ts:72 | only the selection changes |
| ArtistStores.ArtistStore.SetLoading | src/stores/artistStore.ts:73 | only the loading flag changes |
| ArtistStores.ArtistStore.SetError | src/stores/artistStore.ts:74 | only the error changes |
| ArtistStores.ArtistStore.SetSearchQuery | src/stores/artistStore.ts:77 | only the query changes |
| ArtistStores.ArtistStore.SetSortBy | src/stores/artistStore.ts:78 | only the order changes |
| ArtistStores.ArtistStore.GetFilteredArtists | src/stores/artistStore.ts:81-104 | a permutation of the matching records (name or biography containing the query, case ignored); sorted by name under the collation, or newest `created_at` first |
| ArtistStores.ArtistStore.GetArtistBySlug | src/stores/artistStore.ts:106-109 | none exactly when no record has the slug; otherwise the first record that has it |
| ArtistStores.ArtistStore.Reset | src/stores/artistStore.ts:112-120 | the store is back in its first state |
| UiStores.SavedPart | src/stores/uiStore.ts:94-98 | the saved record carries the theme, the gallery view and the column count of the state |
| UiStores.SavedIgnoresTransientFields | src/stores/uiStore.ts:94-98 | states that agree on the three preferences save the same record |
| UiStores.MenuToggled | src/stores/uiStore.ts:58-59 | the menu flag flips and nothing else changes |
| UiStores.SearchToggled | src/stores/uiStore.ts:68-72 | the search flag flips; closing clears the query, opening keeps it; nothing else changes |
| UiStores.AfterReset | src/stores/uiStore.ts:80-90 | the theme is kept and every other field is its first value |
| UiStores.ToggleMobileMenuTwice | src/stores/uiStore.ts:58-59 | two menu toggles give back the same state |
| UiStores.ToggleGlobalSearchTwice | src/stores/uiStore.ts:68-72 | two search toggles give back the state with an empty query |
| UiStores.ResetIdempotent | src/stores/uiStore.ts:80-90 | resetting twice is resetting once, and the first state is unchanged by a reset |
| UiStores.ResetSaved | src/stores/uiStore.ts:80-98 | after a reset the saved record is the kept theme with the grid view and three columns |
| UiStores.UiStore.Persisted | src/stores/uiStore.ts:94-98 | what is written to storage is the saved part of the current state |
| UiStores.UiStore.constructor | src/stores/uiStore.ts:46-53 | the system theme, everything closed and cleared, the grid view with three columns |
| UiStores.UiStore.SetTheme | src/stores/uiStore.ts:56 | only the theme changes |
| UiStores.UiStore.ToggleMobileMenu | src/stores/uiStore.ts:58-59 | the state is the menu toggle of the old state, and the saved record is unchanged |
| UiStores.UiStore.SetMobileMenuOpen | src/stores/uiStore.ts:61 | only the menu flag changes; the saved record is unchanged |
| UiStores.UiStore.OpenModal | src/stores/uiStore.ts:63 | only the open modal changes; the saved record is unchanged |
| UiStores.UiStore.CloseModal | src/stores/uiStore.ts:64 | no modal is open and nothing else changes |
| UiStores.UiStore.SetPageLoading | src/stores/uiStore.ts:66 | only the loading flag changes; the saved record is unchanged |
| UiStores.UiStore.ToggleGlobalSearch | src/stores/uiStore.ts:68-72 | the state is the search toggle of the old state, and the saved record is unchanged |
| UiStores.UiStore.SetGlobalSearchQuery | src/stores/uiStore.ts:74 | only the query changes; the saved record is unchanged |
| UiStores.UiStore.SetGalleryView | src/stores/uiStore.ts:76 | only the gallery view changes |
| UiStores.UiStore.SetGridColumns | src/stores/uiStore.ts:77 | only the column count changes |
| UiStores.UiStore.Reset | src/stores/uiStore.ts:80-90 | the state is the reset of the old state, so the theme is kept |
| Middleware.GetParam | src/middleware.ts:43 | none exactly when no pair has the name; otherwise the value of the first pair that has it |
| Middleware.SetParam | src/middleware.ts:43 | afterwards the name has exactly one pair and reads back as the value; pairs with other names are unchanged and in order; a new name is appended at the end |
| Middleware.AdminPathsRun | src/middleware.ts:36-67 | the matcher runs the middleware on every path under "/admin", so the guard cannot be skipped |
| Middleware.FaviconDotIsWildcard | src/middleware.ts:67 | the unescaped `.` of `favicon.ico` matches any character: `/favicon.ico`, `/favicon-ico` and `/faviconxico/admin` are skipped, `/favicon` is not |
| Middleware.Decide | src/middleware.ts:36-54 | an admin path without a user redirects to the login page with `redirectTo` set to the path; the login page with a user redirects to "/admin" with the same query; every other request passes through |
| Middleware.LoginIsNotAdmin | src/middleware.ts:36-37 | the login page is not an admin route, so at most one rule applies |
| Middleware.NoRedirectLoop | src/middleware.ts:40-54 | for the same user state the target of a redirect passes through |
| Middleware.LoginKnowsWhereToReturn | src/middleware.ts:40-44 | a signed-out visitor to an admin path is redirected, and the target's `redirectTo` is the original path |
| Middleware.AdministratorGuarded | src/middleware.ts:36 | "/administrator" is guarded as well, since the test is a prefix test |
| Middleware.LoginPageIsExact | src/middleware.ts:37 | "/auth/login/" with a trailing slash is not the login page, so a signed-in visitor there passes through |
| Middleware.CookieJar.constructor | src/middleware.ts:6-8 | a jar holding the given cookies |
| Middleware.LastWrite | src/middleware.ts:19-22 | none exactly when no write has the name; otherwise the last write with the name |
| Middleware.WrittenLastWins | src/middleware.ts:19-22 | after a batch of writes, a name that was not written keeps its old cookie, and a written one holds its last write |
| Middleware.SetAll | src/middleware.ts:18-23 | the request gets each cookie's name and value and the response each cookie with its options; the last write of a name wins in both |
| Middleware.ResponseAsWritten | src/middleware.ts:40-54 | a pass-through carries the refreshed cookies; a redirect is a new response with no cookies |
| Middleware.ResponseWithCookies | src/middleware.ts:40-54 | every response, redirect or not, carries the refreshed cookies; it redirects exactly when the decision is a redirect |
| Middleware.HandleAsWritten | src/middleware.ts:5-55 | the request cookies take what the client wrote; the response is the decision with the cookies only on a pass-through |
| Middleware.Handle | src/middleware.ts:5-55 | the request cookies take what the client wrote; the response is the decision and holds every refreshed cookie at its last written value |
| Middleware.RedirectDropsRefreshedCookie | src/middleware.ts:48-52 | a signed-in visitor on the login page whose session is refreshed is redirected without the refreshed cookie as written, and with it in the corrected response |
| Language.ParseLang | src/contexts/LanguageContext.tsx:23-24 | a saved value is adopted exactly when it is "en" or "kr", and then as that language |
| Language.CodeRoundTrip | src/contexts/LanguageContext.tsx:23-40 | the value `setLanguage` saves reads back as the same language |
| Language.LocalStorage.constructor | src/contexts/LanguageContext.tsx:23 | storage holding the given entries |
| Language.LocalStorage.GetItem | src/contexts/LanguageContext.tsx:23 | none exactly when the key is absent, otherwise its stored value |
| Language.LanguageProvider.constructor | src/contexts/LanguageContext.tsx:18 | the provider starts in English over the given storage |
| Language.LanguageProvider.LoadPreference | src/contexts/LanguageContext.tsx:20-35 | a valid saved preference becomes the language; anything else leaves the language as it was |
| Language.LanguageProvider.SetLanguage | src/contexts/LanguageContext.tsx:37-42 | the language and the saved preference both become the new language; no other storage entry changes; the saved one reads back as it |
| Language.CurrentLanguage | src/contexts/LanguageContext.tsx:51-63 | the provider's language, or English when no provider is mounted |
| Language.SetThroughHook | src/contexts/LanguageContext.tsx:51-63 | with a provider, its language and saved preference become the new language; without one the change is ignored |
| Language.NextVisit | src/contexts/LanguageContext.tsx:17-42 | a language set through one provider is the language a later provider over the same storage loads |
| Language.KeyList | src/contexts/LanguageContext.tsx:66-111 | the keys of a table, in its order |
| Language.Lookup | src/contexts/LanguageContext.tsx:115 | none exactly when the key is not in the table; otherwise a text the table gives the key |
| Language.LookupSameKeys | src/contexts/LanguageContext.tsx:115 | tables with the same keys find the same keys |
| Language.TablesHaveSameKeys | src/contexts/LanguageContext.tsx:66-111 | the English and the Korean table list the same keys in the same order |
| Language.TableOf | src/contexts/LanguageContext.tsx:115 | each language's table has the English keys and no empty text |
| Language.EveryKeyTranslated | src/contexts/LanguageContext.tsx:66-115 | a key has an English text exactly when it has a Korean one |
| Language.UseTranslation | src/contexts/LanguageContext.tsx:113-116 | the current language's table, English without a provider; it always has the English keys |
| DatabaseTypes.ParseImageType | src/types/database.ts:250 | a text read as an image type is that type's stored name; any other text is no type |
| DatabaseTypes.ImageTypesClosed | src/types/database.ts:250 | every image type is one of the six listed, and its stored name reads back as itself |
| Common.LastSegment | src/lib/api/exhibition-images.ts:301 | the last segment of a URL contains no slash |
| Artworks.ArtworkService.constructor | src/lib/api/artworks.ts:43 | empty artwork and image tables with consistent ids |
| ExhibitionImages.ExhibitionImageService.constructor | src/lib/api/exhibition-images.ts:55 | an empty image table with consistent ids |
| Exhibitions.ExhibitionService.constructor | src/lib/api/exhibitions.ts:9 | an empty exhibition table with consistent ids |

## Left out

- The text search of the listings (`or` with `ilike`) is not modelled. This applies to `getAll` in the exhibition, artwork, news and video services, and to `searchByCaption` and `searchByTitle`. Matching with SQL `ILIKE` patterns belongs to the database.
- News.NewsPostService.GetAll: the query text is dropped. The contract covers the visibility filter, the order and the page bounds only.
- Videos.VideoService.GetAll: the query text is dropped, as above.
- Exhibitions.ExhibitionService.GetAll: the query text is dropped, as above.
- Artworks.ArtworkService.GetAll: the query text, the `materials` filter (`ilike` on `materials`, src/lib/api/artworks.ts:77-79), the ordering by title, year, creation time or featured flag, and the offset are dropped. The rows keep table order; only the artist, year and featured filters and the limit are stated.
- Artworks.ArtworkService.GetFeatured: follows from `getAll` above, so the order by title is not stated either.
- `getBySlug` and `getWithArtists` of the exhibition service, and `getById` and `getBySlug` of the artwork service, are left out. They are single-row lookups with joins and add no rule.
- Counts relative to the current time are not modelled. These are `recentlyAdded` in the image statistics and `recent` in the newsletter statistics. They depend on the wall clock.
- Newsletter.NewsletterService.GetStats: the count of recent subscriptions is not part of the result.
- ExhibitionImages.ExhibitionImageService.GetImageStats: `recentlyAdded` is not part of the result.
- Newsletter.NewsletterService.BulkUpdate: the patch sets whole fields. A partial object sent for an id is not modelled.
- Queries.Window, Queries.Listing: which rows with equal keys a database order puts first is not modelled. The database may order ties freely; the model uses a stable insertion sort, so a page of a listing with ties is one of the pages the database may return.
- ExhibitionImages.ExhibitionImageService.ImagesOf: the orderings of `getByExhibitionId` other than `image_type` (by display order, or newest first by default) and its paging are not modelled; the rows keep table order. `ImagesByType` models the `image_type` order, which `getGroupedByType` and the image manager use.
- ExhibitionImages.ExhibitionImageService.ImagesByType: `order('image_type')` is modelled as the text order of the stored type names, as for a text column. An enum column in Postgres would order by the enum's declaration order instead; the schema of the column is not part of this model. Rows with equal type and display order are in table order, as a stable sort leaves them.
- String order is by code point. `localeCompare` is the parameter `nameLe`; JavaScript's default `sort()` compares UTF-16 code units, which agree with code points for the Basic Multilingual Plane only.
- `toLowerCase` is modelled on ASCII letters only; Unicode case mapping is not.
- `slugify` keeps Hangul syllables and ASCII word characters. Other Unicode word characters are not part of `\w` and are dropped, as in JavaScript without the `u` flag.
- Utils.TruncateText: `maxLength` is an integer. A fractional `maxLength` is not modelled.
- Utils.TruncateText: the length test and the cut count code points, while JavaScript's `length` and `slice` count UTF-16 code units. The two agree on text of the Basic Multilingual Plane. A cut through a surrogate pair leaves a lone surrogate, which a Dafny `string` cannot hold.
- Utils.LastChars: `slice(-8)` counts UTF-16 code units; the model counts code points, which agree on text of the Basic Multilingual Plane, for the same reason as above.
- Exhibitions.ExhibitionService.Update: the source also writes the derived status into the caller's update object. That aliasing is not modelled; only the stored row is.
- `formatFileSize`, thumbnail creation on a canvas, upload progress percentages, the Intl date formatting, `cn` and `getImageUrl` are left out. They use floating point, the DOM or environment variables.
- `listBucketFiles` and the thin wrappers over the storage SDK are left out. `StorageSdk` is the storage abstraction the model uses in their place.
- `Promise.all` concurrency and interleaving are not modelled. Batches run their items one after another, and no atomicity is claimed. The error of the demoting write in `setPosterImage` is ignored by the source and has no effect in the model.
- `z.coerce.number()` is modelled as an input that is already a number.
- zod's `url()`, `uuid()` and `email()` checks are parameters of `Formats`. The only exception is the UUID shape, which is written out.
- The `File` instance check is not modelled: a file is its name, size and type.
- Spreading an object with a property explicitly set to `undefined` is not modelled. A field that is not sent keeps its value.
- ArtistStores.ArtistStore.GetFilteredArtists: the sort of the filtered copy is modelled on values. The in-place `Array.sort` on the fresh array is not.
- React scheduling (`startTransition`, effects, re-renders), console warnings and `alert` calls are left out. `onImagesChange` and other component callbacks are left out too.
- The authentication files, the devtools wrapper and rehydration by the persist middleware are left out.
- The middleware's cookie options are opaque name-value pairs.
- `createServerClient`, the environment variables and `getUser` are left out. `getUser` is the parameter `hasUser`.
- Foreign-key cascades, database defaults other than those the services set, and failed inserts are not modelled.
- `new URL(...)` parsing is not modelled. A public URL is the project URL followed by the public path.
- The `maxImagesPerType` badge of the image manager only affects the display. It is not modelled.
- Generated ids are natural numbers handed out in order. Their text form is `NatToString`, and the UUID format of the real ids is not modelled.

## Findings

| source | as written | input that shows it | evidently intended | confidence | as-written member | corrected member |
|---|---|---|---|---|---|---|
| src/components/exhibitions/ExhibitionImageManager.tsx:435-436 | the move buttons are enabled by `display_order` (`> 0`, `< length - 1`) while `moveImage` moves by position in the group | orders 0, 2, 3: the middle image cannot be moved down although it can move; orders 1, 2: the first image's up button is on but does nothing | enable the buttons by position in the group | not executed; medium | ImageManager.MoveFlagsAsWrittenDisagree | ImageManager.CanMoveByPosition |
| src/lib/api/exhibition-images.ts:301 | the storage key of a deleted image is the last URL segment | an image uploaded by the manager under `exhibition_<id>/<type>/<name>`: the delete removes `<name>` and leaves the object in place | delete by the full stored path, as `extractFilePathFromUrl` reads it | not executed; high | Upload.LastSegmentDropsFolder | ExhibitionImages.ExhibitionImageService.DeleteImageAtStoredPath |
| src/lib/api/news.ts:255 | the lookup of `syncFromInstagram` is `getByInstagramId`, whose `.single()` fails on zero rows and is re-thrown | any import of a post that is not stored yet: the call fails and the create branch is never reached | a lookup that reports no row (`maybeSingle`) so that a new post is created | not executed; medium | News.NewsPostService.SyncFromInstagramAsWritten | News.NewsPostService.SyncFromInstagram |
| src/middleware.ts:40-52 | a redirect is a new response, so the session cookies the client refreshed through `setAll` are not on it | a signed-in visitor on `/auth/login` whose session is refreshed: the redirect to `/admin` carries no refreshed cookie | copy the refreshed cookies onto every response | not executed; medium | Middleware.RedirectDropsRefreshedCookie | Middleware.Handle |
