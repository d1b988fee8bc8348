/**
 * The poster storage service (src/common/services/upload.service.ts): the
 * choice between S3 and the local `uploads/posters` directory, its own
 * 2 MB validator, the generated file name, the URL each backend returns and
 * the key or file name recovered from such a URL when a poster is deleted.
 *
 * The bucket's objects and the directory's files are the maps `s3Objects`
 * (object key to content) and `localFiles` (path to content). Whether a write
 * or a delete succeeds is a parameter; the uuid is a parameter too.
 */
module Upload {
  import opened Wrappers
  import opened Exceptions
  import opened Strings
  import opened FileValidation

  const UploadDir := "uploads/posters"
  const MaxUploadSize := 2 * 1024 * 1024

  // ---------------------------------------------------------------------
  // Backend selection
  // ---------------------------------------------------------------------

  /** The environment variables the constructor reads; an unset variable is "". */
  datatype Env = Env(nodeEnv: string, awsAccessKey: string, awsSecretKey: string, bucketName: string)

  /** S3 is used iff running in production with every AWS credential and the bucket set. */
  predicate SelectsS3(env: Env) {
    env.nodeEnv == "production" && env.awsAccessKey != "" && env.awsSecretKey != "" && env.bucketName != ""
  }

  // ---------------------------------------------------------------------
  // Validation
  // ---------------------------------------------------------------------

  /** validateFile: a file must be present, of an allowed MIME type and at most 2 MB. */
  function ValidateUpload(file: Option<UploadedFile>): (r: Result<(), HttpError>)
    ensures r.Ok? <==> file.Some? && file.value.mimetype in AllowedMimeTypes && file.value.size <= MaxUploadSize
    ensures r == Err(BadRequest(NoFileProvided)) <==> file.None?
    ensures r.Err? && r.error == BadRequest(FileTooLarge(MaxUploadSize))
            <==> file.Some? && file.value.mimetype in AllowedMimeTypes && file.value.size > MaxUploadSize
    ensures file.Some? && file.value.mimetype !in AllowedMimeTypes ==> r == Err(BadRequest(InvalidFileType(file.value.mimetype)))
  {
    match file
    case None => Err(BadRequest(NoFileProvided))
    case Some(f) =>
      if f.mimetype !in AllowedMimeTypes then Err(BadRequest(InvalidFileType(f.mimetype)))
      else if f.size > MaxUploadSize then Err(BadRequest(FileTooLarge(MaxUploadSize)))
      else Ok(())
  }

  /**
   * Behind the interceptor the service's own ceiling is the binding one: a
   * file the interceptor accepts is stored iff it is at most 2 MB.
   */
  lemma UploadCeilingBinds(f: UploadedFile)
    requires Intercept(Some(f)).Ok?
    ensures ValidateUpload(Some(f)).Ok? <==> f.size <= MaxUploadSize
  {
  }

  /** A 3 MB JPEG passes the interceptor and is then refused by the service. */
  lemma ThreeMegabytesRefused()
    ensures var f := UploadedFile("a.jpg", "image/jpeg", 3 * 1024 * 1024, Some([0xFF, 0xD8, 0xFF, 0xE0, 0, 0, 0, 0]));
            Intercept(Some(f)).Ok? && ValidateUpload(Some(f)) == Err(BadRequest(FileTooLarge(MaxUploadSize)))
  {
    LastSegmentAfter("a", '.', "jpg");
    assert ToLower("a.jpg") == "a" + ['.'] + "jpg";
  }

  // ---------------------------------------------------------------------
  // File names
  // ---------------------------------------------------------------------

  /** `s` without its trailing run of `c`. */
  function TrimTrailing(s: string, c: char): (r: string)
    ensures |r| <= |s| && r == s[..|r|]
    ensures r == [] || r[|r| - 1] != c
  {
    if s != [] && s[|s| - 1] == c then TrimTrailing(s[..|s| - 1], c) else s
  }

  /**
   * Node's `path.extname`: the text of the base name from its last dot on,
   * or "" when the base name has no dot, has its last dot first (".png"),
   * or is "..".
   */
  function Extname(p: string): (r: string)
    ensures r == [] || (r[0] == '.' && '/' !in r)
  {
    var base := LastSegment(TrimTrailing(p, '/'), '/');
    var afterDot := LastSegment(base, '.');
    if |afterDot| == |base| then ""
    else
      var dot := |base| - |afterDot| - 1;
      if dot == 0 || (dot == 1 && dot == |base| - 1 && base[0] == '.') then ""
      else
        assert forall x :: x in base[dot..] ==> x in base;
        base[dot..]
  }

  /** A name `stem.ext` without slashes has extension `.ext`. */
  lemma ExtnameOf(stem: string, ext: string)
    requires |stem| > 0 && |ext| > 0
    requires '/' !in stem && '/' !in ext && '.' !in ext
    ensures Extname(stem + "." + ext) == "." + ext
  {
    var p := stem + "." + ext;
    PlainNameIsBase(stem, ext);
    DotSplitsName(stem, ext);
    FromTheDot(stem, ext);
    assert |LastSegment(p, '.')| == |ext| < |p|;
  }

  /** A slash-free `stem.ext` is its own base name. */
  lemma PlainNameIsBase(stem: string, ext: string)
    requires '/' !in stem && '/' !in ext
    ensures LastSegment(TrimTrailing(stem + "." + ext, '/'), '/') == stem + "." + ext
  {
    var p := stem + "." + ext;
    JoinSlashFree(stem, ext);
    NothingToTrim(p, '/');
    LastSegmentWhole(p, '/');
  }

  lemma JoinSlashFree(stem: string, ext: string)
    requires '/' !in stem && '/' !in ext
    ensures '/' !in stem + "." + ext
  {
    var p := stem + "." + ext;
    forall i | 0 <= i < |p| ensures p[i] != '/' {
      if i < |stem| {
        assert p[i] == stem[i];
      } else if i > |stem| {
        assert p[i] == ext[i - |stem| - 1];
      }
    }
  }

  /** A string without `c` has no trailing `c` to trim. */
  lemma NothingToTrim(s: string, c: char)
    requires c !in s
    ensures TrimTrailing(s, c) == s
  {
    if s != [] {
      assert s[|s| - 1] in s;
    }
  }

  /** In `stem.ext` with a dot-free extension, the text after the last dot is the extension. */
  lemma DotSplitsName(stem: string, ext: string)
    requires '.' !in ext
    ensures LastSegment(stem + "." + ext, '.') == ext
  {
    LastSegmentAfter(stem, '.', ext);
  }

  lemma FromTheDot(stem: string, ext: string)
    ensures (stem + "." + ext)[|stem|..] == "." + ext
  {
  }

  /** A name put together from slash-free parts, one of them lower-cased, is slash-free. */
  lemma PosterNameSlashFree(uuid: string, ext: string)
    requires '/' !in ext
    ensures '/' !in uuid ==> '/' !in "poster-" + uuid + ToLower(ext)
  {
    if '/' !in uuid {
      var name := "poster-" + uuid + ToLower(ext);
      forall i | 0 <= i < |name| ensures name[i] != '/' {
        if i < 7 {
          assert name[i] == "poster-"[i];
        } else if i < 7 + |uuid| {
          assert name[i] == uuid[i - 7];
        } else {
          assert name[i] == LowerChar(ext[i - 7 - |uuid|]);
          assert ext[i - 7 - |uuid|] in ext;
        }
      }
    }
  }

  /** generateFileName: `poster-`, the uuid, then the original's extension in lower case. */
  function GenerateFileName(originalName: string, uuid: string): (r: string)
    ensures '/' !in uuid ==> '/' !in r
    ensures |r| >= 7
  {
    var ext := Extname(originalName);
    PosterNameSlashFree(uuid, ext);
    "poster-" + uuid + ToLower(ext)
  }

  /**
   * The generated name depends on the original name only through its
   * extension: the base name never reaches storage.
   */
  lemma FileNameKeepsOnlyExtension(stem: string, ext: string, uuid: string)
    requires |stem| > 0 && |ext| > 0
    requires '/' !in stem && '/' !in ext && '.' !in ext
    ensures GenerateFileName(stem + "." + ext, uuid) == "poster-" + uuid + "." + ToLower(ext)
  {
    LowerExtnameOf(stem, ext);
  }

  lemma LowerExtnameOf(stem: string, ext: string)
    requires |stem| > 0 && |ext| > 0
    requires '/' !in stem && '/' !in ext && '.' !in ext
    ensures ToLower(Extname(stem + "." + ext)) == "." + ToLower(ext)
  {
    ExtnameOf(stem, ext);
    ToLowerAppend(".", ext);
    assert ToLower(".") == "." by {
      assert ToLower(".")[0] == LowerChar('.');
    }
  }

  /** getFileExtension: the extension for a MIME type, `.jpg` for anything unknown. */
  function GetFileExtension(mimetype: string): (r: string)
    ensures r == ".png" <==> mimetype == "image/png"
    ensures r != ".png" ==> r == ".jpg"
  {
    var mimeToExt := map["image/jpeg" := ".jpg", "image/jpg" := ".jpg", "image/png" := ".png"];
    if mimetype in mimeToExt then mimeToExt[mimetype] else ".jpg"
  }

  // ---------------------------------------------------------------------
  // URLs and their inverses
  // ---------------------------------------------------------------------

  const LocalPrefix := "/uploads/posters"
  const S3Separator := ".amazonaws.com/"

  /** The URL uploadToLocal returns. */
  function LocalUrl(fileName: string): string {
    LocalPrefix + "/" + fileName
  }

  /** The object key uploadToS3 writes. */
  function S3Key(fileName: string): string {
    "posters/" + fileName
  }

  /** The URL uploadToS3 returns: `https://<bucket>.s3.amazonaws.com/<key>`. */
  function S3Url(bucket: string, key: string): string {
    "https://" + bucket + ".s3" + S3Separator + key
  }

  /** deleteFromLocal: the last `/` segment of the URL. */
  function LocalFileFromUrl(url: string): (r: string)
    ensures '/' !in r
  {
    LastSegment(url, '/')
  }

  /** deleteFromS3: the text after the first `.amazonaws.com/`. */
  function S3KeyFromUrl(url: string): (r: Option<string>)
    ensures r.Some? <==> Contains(url, S3Separator)
  {
    SplitSecond(url, S3Separator)
  }

  /** `path.join(uploadDir, name)` for a name without slashes. */
  function UploadPath(name: string): string {
    if name == "." then UploadDir
    else if name == ".." then "uploads"
    else UploadDir + "/" + name
  }

  /** The local URL gives back the file name it was built from. */
  lemma LocalRoundTrip(fileName: string)
    requires '/' !in fileName
    ensures LocalFileFromUrl(LocalUrl(fileName)) == fileName
  {
    assert LocalUrl(fileName) == LocalPrefix + ['/'] + fileName;
    LastSegmentAfter(LocalPrefix, '/', fileName);
  }

  lemma SeparatorEndsInSlash(s: string, k: int)
    ensures OccursAt(s, S3Separator, k) ==> s[k + 14] == '/'
  {
    if OccursAt(s, S3Separator, k) {
      assert s[k..k + 15][14] == S3Separator[14];
    }
  }

  /** A key `posters/<name>` with a slash-free name holds no separator. */
  lemma KeyHoldsNoSeparator(fileName: string)
    requires '/' !in fileName
    ensures !Contains(S3Key(fileName), S3Separator)
  {
    var key := S3Key(fileName);
    forall i ensures !OccursAt(key, S3Separator, i) {
      SeparatorEndsInSlash(key, i);
      if 0 <= i && i + 15 <= |key| {
        assert key[i + 14] == fileName[i + 6];
      }
    }
    ContainsIff(key, S3Separator);
  }

  /**
   * The S3 URL gives back the key it was built from, for any bucket name
   * without a slash (which bucket naming rules exclude).
   */
  lemma S3RoundTrip(bucket: string, fileName: string)
    requires '/' !in bucket && '/' !in fileName
    ensures S3KeyFromUrl(S3Url(bucket, S3Key(fileName))) == Some(S3Key(fileName))
  {
    var a := "https://" + bucket + ".s3";
    var key := S3Key(fileName);
    var s := a + S3Separator + key;
    assert '/' !in ".amazonaws.com";
    forall k | 0 <= k < |a| ensures !OccursAt(s, S3Separator, k) {
      SeparatorEndsInSlash(s, k);
      if k + 15 <= |s| {
        if k + 14 < |a| {
          assert s[k + 14] == a[k + 14];
          if k + 14 < 8 + |bucket| {
            assert a[k + 14] == bucket[k + 6];
          } else {
            assert a[k + 14] == ".s3"[k + 14 - 8 - |bucket|];
          }
        } else {
          assert s[k + 14] == S3Separator[k + 14 - |a|];
          assert S3Separator[k + 14 - |a|] == ".amazonaws.com"[k + 14 - |a|];
        }
      }
    }
    KeyHoldsNoSeparator(fileName);
    SplitSecondOf(a, S3Separator, key);
  }

  // ---------------------------------------------------------------------
  // What a delete removes
  // ---------------------------------------------------------------------

  /** The object key deleteFromS3 deletes, if the URL yields a non-empty one. */
  function S3DeleteTarget(url: string): Option<string> {
    match S3KeyFromUrl(url)
    case Some(k) => if k != "" then Some(k) else None
    case None => None
  }

  /** The path deleteFromLocal unlinks, if the URL yields a non-empty file name. */
  function LocalDeleteTarget(url: string): Option<string> {
    var name := LocalFileFromUrl(url);
    if name != "" then Some(UploadPath(name)) else None
  }

  /** `m` without the target, if any. */
  function Without(m: map<string, seq<byte>>, target: Option<string>): map<string, seq<byte>> {
    match target
    case Some(k) => m - {k}
    case None => m
  }

  /** Deleting by the URL an upload returned targets exactly what the upload wrote. */
  lemma DeleteTargetsUpload(bucket: string, originalName: string, uuid: string)
    requires '/' !in bucket && '/' !in uuid
    ensures var name := GenerateFileName(originalName, uuid);
            && S3DeleteTarget(S3Url(bucket, S3Key(name))) == Some(S3Key(name))
            && LocalDeleteTarget(LocalUrl(name)) == Some(UploadPath(name))
  {
    var name := GenerateFileName(originalName, uuid);
    S3RoundTrip(bucket, name);
    LocalRoundTrip(name);
  }

  // ---------------------------------------------------------------------
  // Effects on storage
  // ---------------------------------------------------------------------

  /** Both backends' contents: local files by path, bucket objects by key. */
  datatype Storage = Storage(localFiles: map<string, seq<byte>>, s3Objects: map<string, seq<byte>>)

  /** What an upload leaves behind and what it answers. */
  datatype Outcome = Outcome(storage: Storage, result: Result<string, HttpError>)

  /**
   * deletePoster on the selected backend: an empty URL or a failing delete
   * leaves everything in place, otherwise the target the URL names goes.
   */
  function AfterDelete(useS3: bool, s: Storage, posterUrl: string, deleteOk: bool): (r: Storage)
    ensures r.localFiles.Keys <= s.localFiles.Keys && r.s3Objects.Keys <= s.s3Objects.Keys
    ensures forall k :: k in r.localFiles ==> r.localFiles[k] == s.localFiles[k]
    ensures forall k :: k in r.s3Objects ==> r.s3Objects[k] == s.s3Objects[k]
    ensures posterUrl == "" || !deleteOk ==> r == s
  {
    if posterUrl == "" || !deleteOk then s
    else if useS3 then s.(s3Objects := Without(s.s3Objects, S3DeleteTarget(posterUrl)))
    else s.(localFiles := Without(s.localFiles, LocalDeleteTarget(posterUrl)))
  }

  /**
   * uploadPoster on the selected backend: validation first, then the name,
   * then the write; a rejected file or a failed write stores nothing.
   */
  function AfterUpload(useS3: bool, bucket: string, s: Storage, file: Option<UploadedFile>, uuid: string, writeOk: bool): (r: Outcome)
    ensures r.result.Ok? <==> ValidateUpload(file).Ok? && writeOk
    ensures r.result.Err? ==> r.storage == s
    ensures ValidateUpload(file).Err? ==> r.result == Err(ValidateUpload(file).error)
    ensures ValidateUpload(file).Ok? && !writeOk ==> r.result == Err(BadRequest(UploadFailed(useS3)))
    ensures r.result.Ok? ==> var name := GenerateFileName(file.value.originalname, uuid);
              r.result.value == (if useS3 then S3Url(bucket, S3Key(name)) else LocalUrl(name))
  {
    match ValidateUpload(file)
    case Err(e) => Outcome(s, Err(e))
    case Ok(_) =>
      if !writeOk then Outcome(s, Err(BadRequest(UploadFailed(useS3))))
      else
        var name := GenerateFileName(file.value.originalname, uuid);
        var content := file.value.buffer.GetOr([]);
        if useS3 then Outcome(s.(s3Objects := s.s3Objects[S3Key(name) := content]), Ok(S3Url(bucket, S3Key(name))))
        else Outcome(s.(localFiles := s.localFiles[UploadPath(name) := content]), Ok(LocalUrl(name)))
  }

  /** An upload of a file the validator accepts, step by step. */
  lemma UploadSteps(useS3: bool, bucket: string, s: Storage, f: UploadedFile, uuid: string, writeOk: bool)
    requires ValidateUpload(Some(f)).Ok?
    ensures var name := GenerateFileName(f.originalname, uuid);
            var content := f.buffer.GetOr([]);
            AfterUpload(useS3, bucket, s, Some(f), uuid, writeOk)
            == if !writeOk then Outcome(s, Err(BadRequest(UploadFailed(useS3))))
               else if useS3 then Outcome(s.(s3Objects := s.s3Objects[S3Key(name) := content]), Ok(S3Url(bucket, S3Key(name))))
               else Outcome(s.(localFiles := s.localFiles[UploadPath(name) := content]), Ok(LocalUrl(name)))
  {
  }

  /**
   * Deleting by the URL an upload returned undoes the upload, when the
   * generated name was not in use before.
   */
  lemma UploadThenDeleteRestores(useS3: bool, bucket: string, s: Storage, f: UploadedFile, uuid: string)
    requires '/' !in bucket && '/' !in uuid
    requires ValidateUpload(Some(f)).Ok?
    requires var name := GenerateFileName(f.originalname, uuid);
             S3Key(name) !in s.s3Objects && UploadPath(name) !in s.localFiles
    ensures var up := AfterUpload(useS3, bucket, s, Some(f), uuid, true);
            AfterDelete(useS3, up.storage, up.result.value, true) == s
  {
    var name := GenerateFileName(f.originalname, uuid);
    var content := f.buffer.GetOr([]);
    UploadSteps(useS3, bucket, s, f, uuid, true);
    if useS3 {
      S3UploadUndone(bucket, s, name, content);
    } else {
      LocalUploadUndone(s, name, content);
    }
  }

  lemma S3UploadUndone(bucket: string, s: Storage, name: string, content: seq<byte>)
    requires '/' !in bucket && '/' !in name && S3Key(name) !in s.s3Objects
    ensures AfterDelete(true, s.(s3Objects := s.s3Objects[S3Key(name) := content]), S3Url(bucket, S3Key(name)), true) == s
  {
    S3RoundTrip(bucket, name);
    assert s.s3Objects[S3Key(name) := content] - {S3Key(name)} == s.s3Objects;
  }

  lemma LocalUploadUndone(s: Storage, name: string, content: seq<byte>)
    requires '/' !in name && name != "" && UploadPath(name) !in s.localFiles
    ensures AfterDelete(false, s.(localFiles := s.localFiles[UploadPath(name) := content]), LocalUrl(name), true) == s
  {
    LocalRoundTrip(name);
    assert s.localFiles[UploadPath(name) := content] - {UploadPath(name)} == s.localFiles;
  }

  // ---------------------------------------------------------------------
  // The service
  // ---------------------------------------------------------------------

  class UploadService {
    const useS3: bool
    const bucketName: string
    /** Files under the upload directory, by path. */
    var localFiles: map<string, seq<byte>>
    /** Objects in the bucket, by key. */
    var s3Objects: map<string, seq<byte>>

    /** Both backends' current contents. */
    function Stored(): Storage
      reads this
    {
      Storage(localFiles, s3Objects)
    }

    /** The directories themselves are never files. */
    ghost predicate Valid()
      reads this
    {
      UploadDir !in localFiles && "uploads" !in localFiles
    }

    constructor (env: Env, files: map<string, seq<byte>>, objects: map<string, seq<byte>>)
      requires UploadDir !in files && "uploads" !in files
      ensures Valid()
      ensures useS3 == SelectsS3(env) && bucketName == env.bucketName
      ensures localFiles == files && s3Objects == objects
    {
      useS3 := SelectsS3(env);
      bucketName := env.bucketName;
      localFiles := files;
      s3Objects := objects;
    }

    /**
     * uploadPoster: validate, name the file, then store it on the selected
     * backend; a failed write is reported as a BadRequest and stores nothing.
     */
    method UploadPoster(file: Option<UploadedFile>, uuid: string, writeOk: bool) returns (r: Result<string, HttpError>)
      requires Valid()
      requires '/' !in uuid  // a v4 uuid is hex digits and dashes
      modifies this`localFiles, this`s3Objects
      ensures Valid()
      ensures var up := AfterUpload(useS3, bucketName, old(Stored()), file, uuid, writeOk);
              Stored() == up.storage && r == up.result
    {
      var valid := ValidateUpload(file);
      if valid.Err? {
        return Err(valid.error);
      }
      var f := file.value;
      var fileName := GenerateFileName(f.originalname, uuid);
      UploadSteps(useS3, bucketName, Stored(), f, uuid, writeOk);
      if useS3 {
        r := UploadToS3(f, fileName, writeOk);
      } else {
        r := UploadToLocal(f, fileName, writeOk);
      }
    }

    method UploadToS3(f: UploadedFile, fileName: string, writeOk: bool) returns (r: Result<string, HttpError>)
      modifies this`s3Objects
      ensures !writeOk ==> r == Err(BadRequest(UploadFailed(true))) && s3Objects == old(s3Objects)
      ensures writeOk ==> r == Ok(S3Url(bucketName, S3Key(fileName)))
                          && s3Objects == old(s3Objects)[S3Key(fileName) := f.buffer.GetOr([])]
    {
      if !writeOk {
        return Err(BadRequest(UploadFailed(true)));
      }
      var key := S3Key(fileName);
      s3Objects := s3Objects[key := f.buffer.GetOr([])];
      r := Ok(S3Url(bucketName, key));
    }

    method UploadToLocal(f: UploadedFile, fileName: string, writeOk: bool) returns (r: Result<string, HttpError>)
      requires Valid() && |fileName| >= 7 && '/' !in fileName
      modifies this`localFiles
      ensures Valid()
      ensures !writeOk ==> r == Err(BadRequest(UploadFailed(false))) && localFiles == old(localFiles)
      ensures writeOk ==> r == Ok(LocalUrl(fileName))
                          && localFiles == old(localFiles)[UploadPath(fileName) := f.buffer.GetOr([])]
    {
      if !writeOk {
        return Err(BadRequest(UploadFailed(false)));
      }
      var filePath := UploadPath(fileName);
      assert fileName != "." && fileName != "..";
      assert filePath != UploadDir && filePath != "uploads" by {
        assert |filePath| > |UploadDir|;
      }
      localFiles := localFiles[filePath := f.buffer.GetOr([])];
      r := Ok(LocalUrl(fileName));
    }

    /**
     * deletePoster: nothing for an empty URL; otherwise the selected backend
     * deletes what the URL names. A failing delete is swallowed and changes
     * nothing.
     */
    method DeletePoster(posterUrl: string, deleteOk: bool)
      requires Valid()
      modifies this`localFiles, this`s3Objects
      ensures Valid()
      ensures Stored() == AfterDelete(useS3, old(Stored()), posterUrl, deleteOk)
    {
      if posterUrl == "" {
        return;
      }
      if !deleteOk {
        // the error is logged and swallowed
        return;
      }
      if useS3 {
        DeleteFromS3(posterUrl);
      } else {
        DeleteFromLocal(posterUrl);
      }
    }

    method DeleteFromS3(posterUrl: string)
      modifies this`s3Objects
      ensures s3Objects == Without(old(s3Objects), S3DeleteTarget(posterUrl))
    {
      var key := S3KeyFromUrl(posterUrl);
      if key.Some? && key.value != "" {
        s3Objects := s3Objects - {key.value};
      }
    }

    /** An existing directory path cannot be unlinked: the error is swallowed by the caller. */
    method DeleteFromLocal(posterUrl: string)
      requires Valid()
      modifies this`localFiles
      ensures Valid()
      ensures localFiles == Without(old(localFiles), LocalDeleteTarget(posterUrl))
    {
      var fileName := LocalFileFromUrl(posterUrl);
      if fileName != "" {
        var filePath := UploadPath(fileName);
        if filePath in localFiles {
          localFiles := localFiles - {filePath};
        }
      }
    }
  }
}
