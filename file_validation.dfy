/**
 * The poster upload interceptor
 * (src/common/interceptors/file-validation.interceptor.ts): a request that
 * carries a file passes only if the declared MIME type is allowed, the size is
 * at most 5 MB, the lower-cased extension is jpg, jpeg or png, and the first
 * bytes are a JPEG or PNG signature. The checks run in that order and the
 * first failure decides the error.
 */
module FileValidation {
  import opened Wrappers
  import opened Exceptions
  import opened Strings

  type byte = b: int | 0 <= b < 256

  /** The fields of a multer file the validators read. */
  datatype UploadedFile = UploadedFile(originalname: string, mimetype: string, size: int, buffer: Option<seq<byte>>)

  const AllowedMimeTypes := ["image/jpeg", "image/jpg", "image/png"]
  const MaxFileSize := 5 * 1024 * 1024
  const AllowedExtensions := [".jpg", ".jpeg", ".png"]

  /** `originalname.toLowerCase().split('.').pop()`: the text after the last dot, or the whole name. */
  function NameExtension(originalname: string): string {
    LastSegment(ToLower(originalname), '.')
  }

  predicate StartsJpeg(b: seq<byte>) {
    |b| >= 3 && b[0] == 0xFF && b[1] == 0xD8 && b[2] == 0xFF
  }

  predicate StartsPng(b: seq<byte>) {
    |b| >= 4 && b[0] == 0x89 && b[1] == 0x50 && b[2] == 0x4E && b[3] == 0x47
  }

  /**
   * validateImageMagicBytes: a missing buffer or one shorter than 8 bytes is
   * corrupted; otherwise the buffer passes iff it starts with the JPEG or the
   * PNG signature.
   */
  function ValidateImageMagicBytes(buffer: Option<seq<byte>>): (r: Result<(), HttpError>)
    ensures r.Ok? <==> buffer.Some? && |buffer.value| >= 8 && (StartsJpeg(buffer.value) || StartsPng(buffer.value))
    ensures r == Err(BadRequest(CorruptedFile)) <==> buffer.None? || |buffer.value| < 8
    ensures r.Err? ==> r.error in {BadRequest(CorruptedFile), BadRequest(NotAnImage)}
  {
    if buffer.None? || |buffer.value| < 8 then Err(BadRequest(CorruptedFile))
    else
      var magic := buffer.value[..8];
      if magic[0] == 0xFF && magic[1] == 0xD8 && magic[2] == 0xFF then Ok(())
      else if magic[0] == 0x89 && magic[1] == 0x50 && magic[2] == 0x4E && magic[3] == 0x47 then Ok(())
      else Err(BadRequest(NotAnImage))
  }

  /**
   * The extension check of validateFile: a dot is prefixed and the result
   * looked up in the allow-list; `DottedExtension` shows this is the same as
   * the bare extension being jpg, jpeg or png.
   */
  predicate ExtensionAllowed(ext: string) {
    ext == "jpg" || ext == "jpeg" || ext == "png"
  }

  /** A file meets every constraint the interceptor checks. */
  predicate Acceptable(f: UploadedFile) {
    && f.mimetype in AllowedMimeTypes
    && f.size <= MaxFileSize
    && ExtensionAllowed(NameExtension(f.originalname))
    && f.buffer.Some? && |f.buffer.value| >= 8
    && (StartsJpeg(f.buffer.value) || StartsPng(f.buffer.value))
  }

  /** validateFile: MIME type, then size, then extension, then magic bytes. */
  function ValidateFile(f: UploadedFile): (r: Result<(), HttpError>)
    ensures r.Ok? <==> Acceptable(f)
    ensures r == Err(BadRequest(InvalidFileType(f.mimetype))) <==> f.mimetype !in AllowedMimeTypes
    ensures r == Err(BadRequest(FileTooLarge(MaxFileSize)))
            <==> f.mimetype in AllowedMimeTypes && f.size > MaxFileSize
    ensures r.Err? && r.error.BadRequest? && r.error.reason.InvalidExtension?
            <==> f.mimetype in AllowedMimeTypes && f.size <= MaxFileSize
                 && !ExtensionAllowed(NameExtension(f.originalname))
    ensures f.mimetype in AllowedMimeTypes && f.size <= MaxFileSize && ExtensionAllowed(NameExtension(f.originalname))
            ==> r == ValidateImageMagicBytes(f.buffer)
  {
    if f.mimetype !in AllowedMimeTypes then Err(BadRequest(InvalidFileType(f.mimetype)))
    else if f.size > MaxFileSize then Err(BadRequest(FileTooLarge(MaxFileSize)))
    else ValidateExtensionAndBytes(NameExtension(f.originalname), f.buffer)
  }

  /** The last two checks of validateFile, given the extension taken from the name. */
  function ValidateExtensionAndBytes(fileExtension: string, buffer: Option<seq<byte>>): (r: Result<(), HttpError>)
    ensures r.Ok? <==> && ExtensionAllowed(fileExtension)
                       && buffer.Some? && |buffer.value| >= 8
                       && (StartsJpeg(buffer.value) || StartsPng(buffer.value))
    ensures r.Err? ==> r.error.BadRequest? && !r.error.reason.InvalidFileType? && !r.error.reason.FileTooLarge?
    ensures r.Err? ==> (r.error.reason.InvalidExtension? <==> !ExtensionAllowed(fileExtension))
  {
    if !ExtensionAllowed(fileExtension) then
      Err(BadRequest(InvalidExtension("." + fileExtension)))
    else ValidateImageMagicBytes(buffer)
  }

  /** Prefixing a dot turns the allowed extensions into the allow-list entries and nothing else into one. */
  lemma DottedExtension(ext: string)
    ensures "." + ext in AllowedExtensions <==> ExtensionAllowed(ext)
  {
    if "." + ext == ".jpg" { assert ext == ("." + ext)[1..]; }
    if "." + ext == ".jpeg" { assert ext == ("." + ext)[1..]; }
    if "." + ext == ".png" { assert ext == ("." + ext)[1..]; }
  }

  /** intercept: a request without a file passes untouched; with one, it passes iff the file does. */
  function Intercept(file: Option<UploadedFile>): (r: Result<(), HttpError>)
    ensures file.None? ==> r.Ok?
    ensures file.Some? ==> (r.Ok? <==> Acceptable(file.value))
  {
    match file
    case None => Ok(())
    case Some(f) => ValidateFile(f)
  }

  /**
   * The signature need not match the declared type: a file declared and named
   * as PNG whose bytes carry the JPEG signature passes.
   */
  lemma MagicIndependentOfDeclaredType()
    ensures ValidateFile(UploadedFile("poster.png", "image/png", 1024, Some([0xFF, 0xD8, 0xFF, 0xE0, 0, 0x10, 0x4A, 0x46]))).Ok?
  {
    var name := "poster.png";
    LastSegmentAfter(ToLower("poster"), '.', "png");
    assert ToLower(name) == ToLower("poster") + ['.'] + "png";
  }

  /** Fewer than eight bytes are corrupted even when they start with a valid signature. */
  lemma ShortBufferIsCorrupted(b: seq<byte>)
    requires |b| < 8 && StartsJpeg(b)
    ensures ValidateImageMagicBytes(Some(b)) == Err(BadRequest(CorruptedFile))
  {
  }

  /**
   * A name without a dot is its own extension: it passes the extension check
   * only when the whole lower-cased name is jpg, jpeg or png.
   */
  lemma DotlessNameExtension(name: string)
    requires '.' !in name
    ensures "." + NameExtension(name) in AllowedExtensions <==> ExtensionAllowed(ToLower(name))
  {
    assert '.' !in ToLower(name) by {
      forall i | 0 <= i < |name| ensures ToLower(name)[i] != '.' {
        assert name[i] != '.';
      }
    }
    LastSegmentWhole(ToLower(name), '.');
    DottedExtension(NameExtension(name));
  }
}
