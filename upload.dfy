/** The upload helpers of `src/lib/utils/upload.ts`: which files may be uploaded,
    how a storage key is made up, the single and the sequential multi-file upload,
    turning a public URL back into a storage path, deleting, and the cleanup of
    files that no stored path mentions. */
module Upload {
  import opened Common
  import opened StorageSdk

  const MaxFileSize: nat := 50 * 1024 * 1024

  const SupportedImageTypes: seq<string> :=
    ["image/jpeg", "image/jpg", "image/png", "image/webp", "image/gif"]

  const BucketExhibitions: string := "exhibitions"
  const BucketArtists: string := "artists"
  const BucketArtworks: string := "artworks"
  const BucketGeneral: string := "general"

  /** `Object.values(STORAGE_BUCKETS)`, in declaration order. */
  const Buckets: seq<string> := [BucketExhibitions, BucketArtists, BucketArtworks, BucketGeneral]

  /** What the helpers read of a browser `File`. */
  datatype FileMeta = FileMeta(name: string, size: nat, mimeType: string)

  datatype Validation = Valid | Invalid(error: string)

  const SizeError: string :=
    "파일 크기가 너무 큽니다. 최대 " + NatToString(MaxFileSize / 1024 / 1024) + "MB까지 업로드 가능합니다."

  const TypeError: string :=
    "지원하지 않는 파일 형식입니다. JPEG, PNG, WebP, GIF 파일만 업로드 가능합니다."

  /** `validateImageFile`: the size cap is checked before the type list. */
  function ValidateImageFile(file: FileMeta): (v: Validation)
    ensures v.Valid? <==> file.size <= MaxFileSize && file.mimeType in SupportedImageTypes
    ensures file.size > MaxFileSize ==> v == Invalid(SizeError)
    ensures file.size <= MaxFileSize && file.mimeType !in SupportedImageTypes ==> v == Invalid(TypeError)
  {
    if file.size > MaxFileSize then Invalid(SizeError)
    else if file.mimeType !in SupportedImageTypes then Invalid(TypeError)
    else Valid
  }

  /** The size message names the cap in whole mebibytes. */
  lemma SizeErrorText()
    ensures SizeError == "파일 크기가 너무 큽니다. 최대 50MB까지 업로드 가능합니다."
  {
    assert MaxFileSize / 1024 / 1024 == 50;
    assert NatToString(50) == "50" by {
      assert NatToString(5) == "5";
    }
  }

  /** A file of exactly the cap is admitted when its type is listed; one byte more is not. */
  lemma CapIsInclusive(name: string, mimeType: string)
    requires mimeType in SupportedImageTypes
    ensures ValidateImageFile(FileMeta(name, MaxFileSize, mimeType)) == Valid
    ensures ValidateImageFile(FileMeta(name, MaxFileSize + 1, mimeType)) == Invalid(SizeError)
  {
  }

  // ---------------------------------------------------------------------------
  // File names
  // ---------------------------------------------------------------------------

  function SanitizeChar(c: char): (d: char)
    ensures IsAsciiAlnum(d) || d == '_'
    ensures IsAsciiAlnum(c) ==> d == c
  {
    if IsAsciiAlnum(c) then c else '_'
  }

  /** What the replacement makes of one character: the regex, without the `u`
      flag, replaces each UTF-16 code unit, so a character outside the Basic
      Multilingual Plane becomes two `_`. */
  function SanitizeUnits(c: char): (r: string)
    ensures |r| == Utf16Units(c)
    ensures forall i :: 0 <= i < |r| ==> r[i] == SanitizeChar(c)
  {
    if Utf16Units(c) == 2 then [SanitizeChar(c), SanitizeChar(c)] else [SanitizeChar(c)]
  }

  /** `replace(/[^a-zA-Z0-9]/g, '_')`: every code unit that is not an ASCII letter
      or digit becomes `_`, none is dropped. */
  function Sanitize(s: string): (r: string)
    ensures |r| == Utf16Length(s)
    ensures forall i :: 0 <= i < |r| ==> IsAsciiAlnum(r[i]) || r[i] == '_'
  {
    if s == [] then [] else SanitizeUnits(s[0]) + Sanitize(s[1..])
  }

  /** On text inside the Basic Multilingual Plane the replacement works character
      by character. */
  lemma {:induction false} SanitizeBmp(s: string)
    requires InBmp(s)
    ensures |Sanitize(s)| == |s|
    ensures forall i :: 0 <= i < |s| ==> Sanitize(s)[i] == SanitizeChar(s[i])
  {
    Utf16LengthBmp(s);
    if s != [] {
      assert InBmp(s[1..]) by {
        forall i | 0 <= i < |s[1..]| ensures s[1..][i] as int <= 0xFFFF {
          assert s[1..][i] == s[i + 1];
        }
      }
      SanitizeBmp(s[1..]);
      var r := Sanitize(s);
      assert r == [SanitizeChar(s[0])] + Sanitize(s[1..]);
      forall i | 0 <= i < |s| ensures r[i] == SanitizeChar(s[i]) {
        if i > 0 {
          assert r[i] == Sanitize(s[1..])[i - 1];
        }
      }
    }
  }

  /** An emoji is one character but two code units, and so two `_`. */
  lemma SanitizeAstral()
    ensures Sanitize("\U{1F600}") == "__"
  {
    assert "\U{1F600}"[1..] == "";
  }

  /** `originalName.split('.').pop()?.toLowerCase()`: the text after the last dot,
      or the whole name when it has none. */
  function Extension(originalName: string): (ext: string)
    ensures '.' !in ext
    ensures forall i :: 0 <= i < |ext| ==> !('A' <= ext[i] <= 'Z')
  {
    var last := LastPiece(originalName, '.');
    var ext := Lower(last);
    assert forall i :: 0 <= i < |ext| ==> ext[i] != '.' by {
      forall i | 0 <= i < |ext| ensures ext[i] != '.' {
        assert last[i] in last;
      }
    }
    ext
  }

  /** `originalName.split('.')[0]` with the sanitising replacement. */
  function BaseName(originalName: string): (b: string)
    ensures |b| == Utf16Length(Split(originalName, '.')[0])
    ensures '.' !in b
  {
    Sanitize(Split(originalName, '.')[0])
  }

  /** `generateFileName`; an empty `prefix` is falsy like an absent one. */
  function GenerateFileName(originalName: string, prefix: string, now: nat, token: string): (r: string)
    ensures IsSuffix("." + Extension(originalName), r)
    ensures prefix != "" ==> IsPrefix(prefix + "_" + BaseName(originalName) + "_", r)
    ensures prefix == "" ==> IsPrefix(BaseName(originalName) + "_", r)
  {
    var head := BaseName(originalName) + "_";
    var ext := "." + Extension(originalName);
    var stem := head + (NatToString(now) + "_" + token + ext);
    assert IsPrefix(head, stem) by { assert stem[..|head|] == head; }
    assert IsSuffix(ext, stem) by { assert stem[|stem| - |ext|..] == ext; }
    if prefix != "" then
      PrefixAppend(prefix + "_", head, stem);
      SuffixAppend(prefix + "_", ext, stem);
      assert prefix + "_" + head == prefix + "_" + BaseName(originalName) + "_";
      prefix + "_" + stem
    else stem
  }

  /** The generated name's own extension is the lower-cased extension of the original. */
  lemma GeneratedExtension(originalName: string, prefix: string, now: nat, token: string)
    ensures Last(Split(GenerateFileName(originalName, prefix, now, token), '.')) == Extension(originalName)
  {
    var ext := Extension(originalName);
    var stem := BaseName(originalName) + "_" + NatToString(now) + "_" + token;
    var head := if prefix != "" then prefix + "_" + stem else stem;
    assert GenerateFileName(originalName, prefix, now, token) == head + ['.'] + ext;
    LastPieceAfter(head, '.', ext);
  }

  // ---------------------------------------------------------------------------
  // Uploading
  // ---------------------------------------------------------------------------

  /** `UploadResult`: the source only ever returns `{success: true, publicUrl, filePath}`
      or `{success: false, error}`. */
  datatype UploadResult = Uploaded(publicUrl: string, filePath: string) | Failed(error: string)

  /** `fileName || generateFileName(file.name)`. */
  function FinalFileName(file: FileMeta, fileName: string, tick: Tick): (name: string)
    ensures name != ""
    ensures fileName != "" ==> name == fileName
  {
    if fileName != "" then fileName else GenerateFileName(file.name, "", tick.now, tick.token)
  }

  /** `folder ? `${folder}/${name}` : name`. */
  function FilePath(folder: string, name: string): (path: string)
    ensures folder != "" ==> path == folder + "/" + name
    ensures folder == "" ==> path == name
  {
    if folder != "" then folder + "/" + name else name
  }

  /** What one `uploadFile` call answers and leaves in the store. */
  function UploadOutcome(projectUrl: string, objects: set<StorageKey>, file: FileMeta, bucket: string,
                         fileName: string, folder: string, tick: Tick): (UploadResult, set<StorageKey>)
  {
    var v := ValidateImageFile(file);
    if v.Invalid? then (Failed(v.error), objects)
    else
      var path := FilePath(folder, FinalFileName(file, fileName, tick));
      if tick.fault.Some? then (Failed(tick.fault.value), objects)
      else if StorageKey(bucket, path) in objects then (Failed(AlreadyExists), objects)
      else (Uploaded(projectUrl + PublicPath(bucket, path), path), objects + {StorageKey(bucket, path)})
  }

  /** A rejected file is never written; an upload succeeds exactly when the file is
      admissible, the store does not fail and the key is free, and then the store
      gains exactly that key and the answer carries its path and public URL. */
  lemma UploadOutcomeSpec(projectUrl: string, objects: set<StorageKey>, file: FileMeta, bucket: string,
                          fileName: string, folder: string, tick: Tick)
    ensures var o := UploadOutcome(projectUrl, objects, file, bucket, fileName, folder, tick);
            ValidateImageFile(file).Invalid? ==> o == (Failed(ValidateImageFile(file).error), objects)
    ensures var o := UploadOutcome(projectUrl, objects, file, bucket, fileName, folder, tick);
            var key := StorageKey(bucket, FilePath(folder, FinalFileName(file, fileName, tick)));
            o.0.Uploaded? <==> ValidateImageFile(file).Valid? && tick.fault.None? && key !in objects
    ensures var o := UploadOutcome(projectUrl, objects, file, bucket, fileName, folder, tick);
            var path := FilePath(folder, FinalFileName(file, fileName, tick));
            o.0.Uploaded? ==> o.0.filePath == path && o.0.publicUrl == projectUrl + PublicPath(bucket, path) &&
                              o.1 == objects + {StorageKey(bucket, path)}
    ensures var o := UploadOutcome(projectUrl, objects, file, bucket, fileName, folder, tick);
            o.0.Failed? ==> o.1 == objects
    ensures var o := UploadOutcome(projectUrl, objects, file, bucket, fileName, folder, tick);
            tick.fault.Some? && ValidateImageFile(file).Valid? ==> o.0 == Failed(tick.fault.value)
  {
  }

  /** `uploadFile`: validation, key, upload without upsert, public URL. */
  method UploadFile(st: Storage, file: FileMeta, bucket: string, fileName: string, folder: string, tick: Tick)
    returns (r: UploadResult)
    modifies st
    ensures (r, st.objects) == UploadOutcome(st.projectUrl, old(st.objects), file, bucket, fileName, folder, tick)
  {
    var validation := ValidateImageFile(file);
    if validation.Invalid? {
      return Failed(validation.error);
    }
    var finalFileName := FinalFileName(file, fileName, tick);
    var filePath := FilePath(folder, finalFileName);
    var uploadError := st.Upload(bucket, filePath, tick.fault);
    if uploadError.Some? {
      return Failed(uploadError.value);
    }
    r := Uploaded(st.PublicUrl(bucket, filePath), filePath);
  }

  /** The results and the final store of uploading `files` one after another, the
      i-th call seeing `ticks(i)`. */
  function UploadAll(projectUrl: string, objects: set<StorageKey>, files: seq<FileMeta>, bucket: string,
                     folder: string, ticks: nat -> Tick): (o: (seq<UploadResult>, set<StorageKey>))
    ensures |o.0| == |files|
    ensures objects <= o.1
  {
    if files == [] then ([], objects)
    else
      var prev := UploadAll(projectUrl, objects, files[..|files| - 1], bucket, folder, ticks);
      var step := UploadOutcome(projectUrl, prev.1, files[|files| - 1], bucket, "", folder, ticks(|files| - 1));
      (prev.0 + [step.0], step.1)
  }

  /** The first k results only depend on the first k files. */
  lemma {:induction false} UploadAllPrefix(projectUrl: string, objects: set<StorageKey>, files: seq<FileMeta>,
                                           bucket: string, folder: string, ticks: nat -> Tick, k: nat)
    requires k <= |files|
    ensures UploadAll(projectUrl, objects, files, bucket, folder, ticks).0[..k] ==
            UploadAll(projectUrl, objects, files[..k], bucket, folder, ticks).0
    decreases |files|
  {
    if k < |files| {
      var init := files[..|files| - 1];
      UploadAllPrefix(projectUrl, objects, init, bucket, folder, ticks, k);
      assert init[..k] == files[..k];
      var all := UploadAll(projectUrl, objects, files, bucket, folder, ticks).0;
      var prev := UploadAll(projectUrl, objects, init, bucket, folder, ticks).0;
      assert all[..k] == prev[..k];
    } else {
      assert files[..k] == files;
    }
  }

  /** Result `i` is the outcome of uploading file `i` into the store the first `i`
      files left. */
  lemma UploadAllAt(projectUrl: string, objects: set<StorageKey>, files: seq<FileMeta>,
                    bucket: string, folder: string, ticks: nat -> Tick, i: nat)
    requires i < |files|
    ensures UploadAll(projectUrl, objects, files, bucket, folder, ticks).0[i] ==
            UploadOutcome(projectUrl, UploadAll(projectUrl, objects, files[..i], bucket, folder, ticks).1,
                          files[i], bucket, "", folder, ticks(i)).0
  {
    UploadAllPrefix(projectUrl, objects, files, bucket, folder, ticks, i + 1);
    var part := files[..i + 1];
    assert part[..i] == files[..i] && part[i] == files[i];
    var all := UploadAll(projectUrl, objects, files, bucket, folder, ticks).0;
    assert all[i] == all[..i + 1][i];
  }

  /** A file that fails validation gets that failure, wherever it stands in the batch. */
  lemma UploadAllRejectsInvalid(projectUrl: string, objects: set<StorageKey>, files: seq<FileMeta>,
                                bucket: string, folder: string, ticks: nat -> Tick, i: nat)
    requires i < |files| && ValidateImageFile(files[i]).Invalid?
    ensures UploadAll(projectUrl, objects, files, bucket, folder, ticks).0[i] ==
            Failed(ValidateImageFile(files[i]).error)
  {
    UploadAllPrefix(projectUrl, objects, files, bucket, folder, ticks, i + 1);
    assert files[..i + 1][..i] == files[..i];
  }

  /** Every uploaded result's key is in the final store. */
  lemma {:induction false} UploadAllStoresSuccesses(projectUrl: string, objects: set<StorageKey>,
                                                    files: seq<FileMeta>, bucket: string, folder: string,
                                                    ticks: nat -> Tick, i: nat)
    requires i < |files|
    requires UploadAll(projectUrl, objects, files, bucket, folder, ticks).0[i].Uploaded?
    ensures var o := UploadAll(projectUrl, objects, files, bucket, folder, ticks);
            StorageKey(bucket, o.0[i].filePath) in o.1
    decreases |files|
  {
    var init := files[..|files| - 1];
    if i < |files| - 1 {
      UploadAllStoresSuccesses(projectUrl, objects, init, bucket, folder, ticks, i);
    }
  }

  /** The multi-file upload passes no name, so every stored key is the folder and a
      generated name without a prefix; the URL is that key's public URL. */
  lemma UploadAllPaths(projectUrl: string, objects: set<StorageKey>, files: seq<FileMeta>,
                       bucket: string, folder: string, ticks: nat -> Tick, i: nat)
    requires i < |files|
    requires UploadAll(projectUrl, objects, files, bucket, folder, ticks).0[i].Uploaded?
    ensures UploadAll(projectUrl, objects, files, bucket, folder, ticks).0[i].filePath ==
            FilePath(folder, GenerateFileName(files[i].name, "", ticks(i).now, ticks(i).token))
    ensures var r := UploadAll(projectUrl, objects, files, bucket, folder, ticks).0[i];
            r.publicUrl == projectUrl + PublicPath(bucket, r.filePath)
  {
    UploadAllAt(projectUrl, objects, files, bucket, folder, ticks, i);
  }

  /** `uploadFiles`: one result per file in input order, and progress `(i + 1, n)`
      after the i-th file. */
  method UploadFiles(st: Storage, files: seq<FileMeta>, bucket: string, folder: string, ticks: nat -> Tick)
    returns (results: seq<UploadResult>, progress: seq<(nat, nat)>)
    modifies st
    ensures (results, st.objects) == UploadAll(st.projectUrl, old(st.objects), files, bucket, folder, ticks)
    ensures |progress| == |files|
    ensures forall i :: 0 <= i < |progress| ==> progress[i] == (i + 1, |files|)
    ensures forall i, j :: 0 <= i < j < |progress| ==> progress[i].0 < progress[j].0
    ensures |files| > 0 ==> Last(progress) == (|files|, |files|)
  {
    results := [];
    progress := [];
    for i := 0 to |files|
      invariant results == UploadAll(st.projectUrl, old(st.objects), files[..i], bucket, folder, ticks).0
      invariant st.objects == UploadAll(st.projectUrl, old(st.objects), files[..i], bucket, folder, ticks).1
      invariant |progress| == i
      invariant forall k :: 0 <= k < i ==> progress[k] == (k + 1, |files|)
    {
      ghost var before := st.objects;
      var result := UploadFile(st, files[i], bucket, "", folder, ticks(i));
      ghost var step := UploadOutcome(st.projectUrl, before, files[i], bucket, "", folder, ticks(i));
      assert (result, st.objects) == step;
      assert files[..i + 1][..i] == files[..i];
      assert UploadAll(st.projectUrl, old(st.objects), files[..i + 1], bucket, folder, ticks) ==
             (results + [result], st.objects);
      results := results + [result];
      progress := progress + [(i + 1, |files|)];
    }
    assert files[..|files|] == files;
  }

  /** The successful results of a batch, in order. */
  function Successful(results: seq<UploadResult>): (r: seq<UploadResult>)
    ensures forall k :: 0 <= k < |r| ==> r[k].Uploaded? && r[k] in results
    ensures forall k :: 0 <= k < |results| && results[k].Uploaded? ==> results[k] in r
  {
    Filter(results, (u: UploadResult) => u.Uploaded?)
  }

  /** The successes of an upload batch all carry their (non-empty) public URL. */
  lemma SuccessesHaveUrls(projectUrl: string, objects: set<StorageKey>, files: seq<FileMeta>, bucket: string,
                          folder: string, ticks: nat -> Tick)
    ensures var s := Successful(UploadAll(projectUrl, objects, files, bucket, folder, ticks).0);
            forall k :: 0 <= k < |s| ==> s[k].Uploaded? && s[k].publicUrl != ""
  {
    var results := UploadAll(projectUrl, objects, files, bucket, folder, ticks).0;
    var s := Successful(results);
    forall k | 0 <= k < |s| ensures s[k].publicUrl != "" {
      var i :| 0 <= i < |results| && results[i] == s[k];
      UploadAllPaths(projectUrl, objects, files, bucket, folder, ticks, i);
    }
  }

  // ---------------------------------------------------------------------------
  // Paths and deletion
  // ---------------------------------------------------------------------------

  /** `extractFilePathFromUrl` on the URL's pathname: the segments after the first
      segment equal to `bucket`, or nothing when that segment is missing or last. */
  function ExtractFilePath(pathname: string, bucket: string): (r: Option<string>)
    ensures var parts := Split(pathname, '/');
            r.None? <==> bucket !in parts[..|parts| - 1]
    ensures var parts := Split(pathname, '/');
            r.Some? ==> exists i :: 0 <= i < |parts| - 1 && parts[i] == bucket && bucket !in parts[..i] &&
                                    r.value == Join(parts[i + 1..], '/')
  {
    var parts := Split(pathname, '/');
    var bucketIndex := FindIndex(parts, bucket);
    assert bucket in parts[..|parts| - 1] ==> 0 <= bucketIndex < |parts| - 1 by {
      if bucket in parts[..|parts| - 1] {
        var j :| 0 <= j < |parts| - 1 && parts[j] == bucket;
      }
    }
    if bucketIndex != -1 && bucketIndex < |parts| - 1 then
      assert parts[bucketIndex] in parts[..|parts| - 1];
      Some(Join(parts[bucketIndex + 1..], '/'))
    else
      None
  }

  lemma SlashCons(a: string, rest: string)
    requires '/' !in a
    ensures Split(a + "/" + rest, '/') == [a] + Split(rest, '/')
  {
    SplitAppend(a, '/', rest);
    SplitNoSep(a, '/');
  }

  lemma SegmentsOf(a: string, b: string, c: string, d: string, bucket: string, path: string)
    requires '/' !in a && '/' !in b && '/' !in c && '/' !in d && '/' !in bucket
    ensures Split("/" + a + "/" + b + "/" + c + "/" + d + "/" + bucket + "/" + path, '/') ==
            ["", a, b, c, d, bucket] + Split(path, '/')
  {
    var r5 := bucket + "/" + path;
    var r4 := d + "/" + r5;
    var r3 := c + "/" + r4;
    var r2 := b + "/" + r3;
    var r1 := a + "/" + r2;
    assert "/" + a + "/" + b + "/" + c + "/" + d + "/" + bucket + "/" + path == "" + "/" + r1;
    var tail := Split(path, '/');
    SlashCons(bucket, path);
    SlashCons(d, r5);
    SlashCons(c, r4);
    SlashCons(b, r3);
    SlashCons(a, r2);
    SlashCons("", r1);
    assert Split(r1, '/') == [a] + ([b] + ([c] + ([d] + ([bucket] + tail))));
    ConsSix("", a, b, c, d, bucket, tail);
  }

  /** Six elements put in front one at a time. */
  lemma ConsSix<T>(x0: T, x1: T, x2: T, x3: T, x4: T, x5: T, tail: seq<T>)
    ensures [x0] + ([x1] + ([x2] + ([x3] + ([x4] + ([x5] + tail))))) == [x0, x1, x2, x3, x4, x5] + tail
  {
  }

  /** The segments of a public path: the fixed ones, the bucket, then those of the path. */
  lemma PublicPathSegments(bucket: string, path: string)
    requires '/' !in bucket
    ensures Split(PublicPath(bucket, path), '/') ==
            ["", "storage", "v1", "object", "public", bucket] + Split(path, '/')
  {
    var lit := "/" + "storage" + "/" + "v1" + "/" + "object" + "/" + "public" + "/";
    assert PublicSegment == lit;
    assert PublicPath(bucket, path) == lit + bucket + "/" + path;
    SegmentsOf("storage", "v1", "object", "public", bucket, path);
  }

  /** The path of a public URL comes back out of it, for a bucket name that is not
      one of the fixed segments before it. */
  lemma ExtractPublicPath(bucket: string, path: string)
    requires bucket !in ["", "storage", "v1", "object", "public"] && '/' !in bucket
    ensures ExtractFilePath(PublicPath(bucket, path), bucket) == Some(path)
  {
    PublicPathSegments(bucket, path);
    var parts := Split(PublicPath(bucket, path), '/');
    assert FindIndex(parts, bucket) == 5 by {
      assert parts[5] == bucket;
      assert parts[..5] == ["", "storage", "v1", "object", "public"];
    }
    assert parts[6..] == Split(path, '/');
    JoinSplit(path, '/');
  }

  /** The object path behind a public URL of the project, read the way
      `extractFilePathFromUrl` reads it: after the bucket segment of the URL's path. */
  function StoredPath(projectUrl: string, url: string, bucket: string): Option<string> {
    if IsPrefix(projectUrl, url) then ExtractFilePath(url[|projectUrl|..], bucket) else None
  }

  /** Reading a public URL back gives the full path it was made from, folders
      included. */
  lemma StoredPathRecovers(projectUrl: string, bucket: string, path: string)
    requires bucket !in ["", "storage", "v1", "object", "public"] && '/' !in bucket
    ensures StoredPath(projectUrl, projectUrl + PublicPath(bucket, path), bucket) == Some(path)
  {
    assert (projectUrl + PublicPath(bucket, path))[|projectUrl|..] == PublicPath(bucket, path);
    ExtractPublicPath(bucket, path);
  }

  /** The last segment of the public URL of a file inside a folder is the bare file
      name, which is not the file's path: deleting by it misses the object. */
  lemma LastSegmentDropsFolder(projectUrl: string, bucket: string, folder: string, name: string)
    requires '/' !in name
    ensures LastSegment(projectUrl + PublicPath(bucket, folder + "/" + name)) == name
    ensures name != folder + "/" + name
  {
    var head := projectUrl + PublicSegment + bucket + "/" + folder;
    assert projectUrl + PublicPath(bucket, folder + "/" + name) == head + ['/'] + name;
    SplitAppend(head, '/', name);
    SplitNoSep(name, '/');
    assert |folder + "/" + name| > |name|;
  }

  /** `deleteFile`: true exactly when the store reports no error. */
  method DeleteFile(st: Storage, bucket: string, filePath: string, fault: Option<string>) returns (ok: bool)
    modifies st
    ensures ok <==> fault.None?
    ensures ok ==> st.objects == old(st.objects) - {StorageKey(bucket, filePath)}
    ensures !ok ==> st.objects == old(st.objects)
  {
    var err := st.Remove(bucket, [filePath], fault);
    assert (set p | p in [filePath] :: StorageKey(bucket, p)) == {StorageKey(bucket, filePath)};
    ok := err.None?;
  }

  // ---------------------------------------------------------------------------
  // Cleanup
  // ---------------------------------------------------------------------------

  /** Some used path mentions `name` as a substring (`usedPath.includes(fileName)`). */
  predicate MentionedIn(usedPaths: seq<string>, name: string) {
    exists u :: u in usedPaths && Contains(u, name)
  }

  /** The listed names that no used path mentions, in listing order. */
  function UnusedFiles(names: seq<string>, usedPaths: seq<string>): (r: seq<string>)
    ensures forall i :: 0 <= i < |r| ==> r[i] in names && !MentionedIn(usedPaths, r[i])
    ensures forall i :: 0 <= i < |names| && !MentionedIn(usedPaths, names[i]) ==> names[i] in r
  {
    Filter(names, name => !MentionedIn(usedPaths, name))
  }

  /** A name that is a used path itself, or part of one, is never selected. */
  lemma UsedNameKept(names: seq<string>, usedPaths: seq<string>, i: nat, j: nat)
    requires i < |names| && j < |usedPaths| && IsSuffix(names[i], usedPaths[j])
    ensures names[i] !in UnusedFiles(names, usedPaths)
  {
    var u := usedPaths[j];
    ContainsAt(u, names[i], |u| - |names[i]|);
    assert MentionedIn(usedPaths, names[i]);
  }

  /** `cleanupUnusedFiles`: the bucket listing is handed in (`None` when the listing
      call fails); the answer is the number of removed files, 0 on any failure. */
  method CleanupUnusedFiles(st: Storage, bucket: string, usedPaths: seq<string>,
                            listing: Option<seq<string>>, removeFault: Option<string>) returns (count: nat)
    modifies st
    ensures listing.None? ==> count == 0 && st.objects == old(st.objects)
    ensures listing.Some? && (UnusedFiles(listing.value, usedPaths) == [] || removeFault.Some?) ==>
              count == 0 && st.objects == old(st.objects)
    ensures listing.Some? && UnusedFiles(listing.value, usedPaths) != [] && removeFault.None? ==>
              count == |UnusedFiles(listing.value, usedPaths)| &&
              st.objects == old(st.objects) - set p | p in UnusedFiles(listing.value, usedPaths) :: StorageKey(bucket, p)
  {
    if listing.None? {
      return 0;
    }
    var unusedFiles := UnusedFiles(listing.value, usedPaths);
    if |unusedFiles| > 0 {
      var deleteError := st.Remove(bucket, unusedFiles, removeFault);
      if deleteError.Some? {
        return 0;
      }
    }
    count := |unusedFiles|;
  }
}
