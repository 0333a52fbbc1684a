/**
 * The upload middleware (backend/middlewares/upload.js): the multer file filter, the stored file
 * name, the limits and the error handler. The clock and `crypto.randomBytes` are parameters.
 */
module Upload {
  import opened Wrappers
  import opened Text
  import opened Http

  const AllowedMimeTypes: seq<string> :=
    ["video/mp4", "video/mpeg", "video/quicktime", "video/x-msvideo", "video/webm", "video/x-matroska"]

  const AllowedExtensions: seq<string> := [".mp4", ".mov", ".avi", ".mkv", ".webm", ".m4v"]

  /** Lines 59-62: at most 200 MiB per file and one file per request. */
  const MaxFileSize: nat := 200 * 1024 * 1024
  const MaxFiles: nat := 1

  const InvalidTypePrefix := "Invalid file type. Allowed types: "

  /** Lines 49-51: the rejection message lists the allowed extensions. */
  function InvalidTypeMessage(): string {
    InvalidTypePrefix + Join(AllowedExtensions, ", ")
  }

  // ---------------------------------------------------------------------------------------------
  // path.extname (POSIX)
  // ---------------------------------------------------------------------------------------------

  /** Removes the trailing '/' characters of a path. */
  function DropTrailingSlashes(p: string): (r: string)
    ensures StartsWith(p, r)
    ensures r == [] || r[|r| - 1] != '/'
    ensures forall k :: |r| <= k < |p| ==> p[k] == '/'
  {
    if p != [] && p[|p| - 1] == '/' then DropTrailingSlashes(p[..|p| - 1]) else p
  }

  /** What follows the last `c` in `s`; all of `s` when it holds no `c`. */
  function AfterLast(s: string, c: char): (r: string)
    ensures c !in r
    ensures |r| <= |s| && r == s[|s| - |r|..]
    ensures |r| < |s| ==> s[|s| - |r| - 1] == c
  {
    if s == [] || s[|s| - 1] == c then []
    else
      var r := AfterLast(s[..|s| - 1], c);
      assert s[..|s| - 1][|s| - 1 - |r|..] + [s[|s| - 1]] == s[|s| - 1 - |r|..];
      r + [s[|s| - 1]]
  }

  /** The index of the last `c` in `s`. */
  function LastIndexOf(s: string, c: char): (r: Option<nat>)
    ensures r.None? <==> c !in s
    ensures r.Some? ==> r.value < |s| && s[r.value] == c && c !in s[r.value + 1..]
  {
    if s == [] then None
    else if s[|s| - 1] == c then Some(|s| - 1)
    else
      var r := LastIndexOf(s[..|s| - 1], c);
      assert s == s[..|s| - 1] + [s[|s| - 1]];
      r
  }

  /** The last non-empty segment of a POSIX path. */
  function LastSegment(p: string): (r: string)
    ensures '/' !in r
  {
    AfterLast(DropTrailingSlashes(p), '/')
  }

  /**
   * `path.extname` on POSIX: in the last segment, from the last '.' to the end; "" when the
   * segment has no '.', when its last '.' is its first character, or when it is "..".
   */
  function Extname(p: string): (r: string)
    ensures r == [] || (r[0] == '.' && '.' !in r[1..])
    ensures '/' !in r
  {
    var seg := LastSegment(p);
    match LastIndexOf(seg, '.')
    case None => ""
    case Some(k) =>
      if k == 0 || seg == ".." then ""
      else
        assert seg[k..][1..] == seg[k + 1..];
        assert forall j :: 0 <= j < |seg| - k ==> seg[k..][j] == seg[k + j];
        seg[k..]
  }

  /** The shape of every value Extname returns: empty, or one '.' followed by no '.' and no '/'. */
  predicate ExtensionShape(e: string) {
    (e == [] || (e[0] == '.' && '.' !in e[1..])) && '/' !in e
  }

  /** Lower-casing keeps the shape of an extension. */
  lemma LowerKeepsShape(e: string)
    requires ExtensionShape(e)
    ensures ExtensionShape(Lower(e))
  {
    var l := Lower(e);
    if e != [] {
      assert l[1..] == Lower(e[1..]);
      forall k | 0 <= k < |l| ensures l[k] != '/' && (k > 0 ==> l[k] != '.') {
        assert e[k] != '/';
        if k > 0 { assert e[k] == e[1..][k - 1]; }
      }
    }
    assert forall k :: 0 <= k < |l| ==> l[k] != '/';
  }

  /** A plain base name followed by an extension-shaped suffix: extname gives back the suffix. */
  lemma ExtnameOfNamed(base: string, ext: string)
    requires base != [] && '/' !in base && '.' !in base
    requires ExtensionShape(ext)
    ensures Extname(base + ext) == ext
  {
    var p := base + ext;
    SegmentOfNamed(base, ext);
    LastDotOfNamed(base, ext);
    if ext != [] {
      assert p[|base|..] == ext;
      assert p != ".." by { assert p[0] == base[0]; }
    }
  }

  /** Such a name is its own last segment. */
  lemma SegmentOfNamed(base: string, ext: string)
    requires base != [] && '/' !in base
    requires '/' !in ext
    ensures LastSegment(base + ext) == base + ext
  {
    var p := base + ext;
    assert p[|p| - 1] != '/' by {
      if ext == [] { assert p[|p| - 1] == base[|base| - 1]; } else { assert p[|p| - 1] == ext[|ext| - 1]; }
    }
    assert DropTrailingSlashes(p) == p;
    assert '/' !in p by {
      forall k | 0 <= k < |p| ensures p[k] != '/' {
        if k < |base| { assert p[k] == base[k]; } else { assert p[k] == ext[k - |base|]; }
      }
    }
    AfterLastWithout(p, '/');
  }

  /** In such a name the last '.' is the one that starts the extension. */
  lemma LastDotOfNamed(base: string, ext: string)
    requires '.' !in base
    requires ext == [] || (ext[0] == '.' && '.' !in ext[1..])
    ensures LastIndexOf(base + ext, '.') == if ext == [] then None else Some(|base|)
  {
    if ext == [] {
      assert base + ext == base;
    } else {
      assert base + ext == (base + ['.']) + ext[1..];
      LastIndexOfAppend(base + ['.'], ext[1..], '.');
    }
  }

  /** Appending text free of `c` does not move the last `c`. */
  lemma {:induction false} LastIndexOfAppend(s: string, t: string, c: char)
    requires c !in t
    ensures LastIndexOf(s + t, c) == LastIndexOf(s, c)
  {
    if t == [] {
      assert s + t == s;
    } else {
      var u := t[..|t| - 1];
      assert (s + t)[..|s + t| - 1] == s + u;
      assert (s + t)[|s + t| - 1] == t[|t| - 1];
      assert c !in u;
      LastIndexOfAppend(s, u, c);
    }
  }

  lemma {:induction false} AfterLastWithout(s: string, c: char)
    requires c !in s
    ensures AfterLast(s, c) == s
  {
    if s != [] {
      assert c !in s[..|s| - 1];
      AfterLastWithout(s[..|s| - 1], c);
    }
  }

  // ---------------------------------------------------------------------------------------------
  // fileFilter
  // ---------------------------------------------------------------------------------------------

  /** `cb(null, true)` or `cb(new Error(message), false)`. */
  datatype FilterDecision = Accepted | Rejected(message: string)

  /** Lines 32-53: both the MIME type and the lower-cased extension must be allowed. */
  function FileFilter(originalName: string, mimetype: string): (r: FilterDecision)
    ensures r.Accepted? <==> mimetype in AllowedMimeTypes && Lower(Extname(originalName)) in AllowedExtensions
    ensures r.Rejected? ==> r.message == InvalidTypeMessage()
  {
    var fileExt := Lower(Extname(originalName));
    if mimetype in AllowedMimeTypes && fileExt in AllowedExtensions then Accepted
    else Rejected(InvalidTypeMessage())
  }

  /** Lower-casing twice is lower-casing once. */
  lemma LowerIdempotent(s: string)
    ensures Lower(Lower(s)) == Lower(s)
  {
  }

  /** The filter does not see the case of the extension. */
  lemma FilterIgnoresExtensionCase(base: string, ext: string, mimetype: string)
    requires base != [] && '/' !in base && '.' !in base
    requires ExtensionShape(ext)
    ensures FileFilter(base + ext, mimetype) == FileFilter(base + Lower(ext), mimetype)
  {
    ExtnameOfNamed(base, ext);
    LowerKeepsShape(ext);
    ExtnameOfNamed(base, Lower(ext));
    LowerIdempotent(ext);
  }

  /** An allowed extension written in any letter case, with an allowed MIME type, is accepted ("clip.MP4" as video/mp4). */
  lemma AnyCaseAllowedExtensionAccepted(base: string, ext: string, mimetype: string)
    requires base != [] && '/' !in base && '.' !in base
    requires ExtensionShape(ext) && Lower(ext) in AllowedExtensions
    requires mimetype in AllowedMimeTypes
    ensures FileFilter(base + ext, mimetype) == Accepted
  {
    ExtnameOfNamed(base, ext);
  }

  // ---------------------------------------------------------------------------------------------
  // filename
  // ---------------------------------------------------------------------------------------------

  newtype byte = x: int | 0 <= x < 256

  function HexDigit(d: nat): (c: char)
    requires d < 16
    ensures c != '.' && c != '/'
  {
    "0123456789abcdef"[d]
  }

  /** `buffer.toString('hex')`: two lower-case hex digits per byte. */
  function Hex(bytes: seq<byte>): (r: string)
    ensures |r| == 2 * |bytes|
    ensures '.' !in r && '/' !in r
  {
    if bytes == [] then ""
    else [HexDigit(bytes[0] as nat / 16), HexDigit(bytes[0] as nat % 16)] + Hex(bytes[1..])
  }

  /** Line 25: `Date.now() + '-' + randomBytes(4).toString('hex')`. */
  function UniqueSuffix(now: nat, random: seq<byte>): (r: string)
    ensures r != [] && '.' !in r && '/' !in r
  {
    var digits := NatToString(now);
    assert forall k :: 0 <= k < |digits| ==> IsDigit(digits[k]);
    NatToString(now) + "-" + Hex(random)
  }

  /** Lines 22-28: the stored name is the unique suffix followed by the lower-cased extension. */
  function StoredFilename(now: nat, random: seq<byte>, originalName: string): string {
    UniqueSuffix(now, random) + Lower(Extname(originalName))
  }

  /** The stored name keeps the extension of the original, lower-cased, and nothing else of it. */
  lemma StoredFilenameExtension(now: nat, random: seq<byte>, originalName: string)
    ensures Extname(StoredFilename(now, random, originalName)) == Lower(Extname(originalName))
  {
    LowerKeepsShape(Extname(originalName));
    ExtnameOfNamed(UniqueSuffix(now, random), Lower(Extname(originalName)));
  }

  /** A file the filter accepts is stored under one of the allowed extensions. */
  lemma AcceptedFileStoredWithAllowedExtension(now: nat, random: seq<byte>, originalName: string, mimetype: string)
    requires FileFilter(originalName, mimetype).Accepted?
    ensures Extname(StoredFilename(now, random, originalName)) in AllowedExtensions
  {
    StoredFilenameExtension(now, random, originalName);
  }

  // ---------------------------------------------------------------------------------------------
  // handleUploadError
  // ---------------------------------------------------------------------------------------------

  /** The error reaching the handler: a `multer.MulterError` with its code, or any other `Error`. */
  datatype UploadError = MulterError(code: string, message: string) | PlainError(message: string)

  const FileTooLargeMessage := "File size exceeds 200MB limit"
  const TooManyFilesMessage := "Only one file can be uploaded at a time"

  /** Lines 66-91: every error answers 400; `next()` runs only when there is no error. */
  function HandleUploadError(err: Option<UploadError>): (r: Gate<()>)
    ensures r.Pass? <==> err.None?
    ensures r.Respond? ==> r.status == 400
    ensures err.Some? && err.value.MulterError? && err.value.code == "LIMIT_FILE_SIZE" ==>
      r.message == FileTooLargeMessage
    ensures err.Some? && err.value.MulterError? && err.value.code == "LIMIT_FILE_COUNT" ==>
      r.message == TooManyFilesMessage
    ensures err.Some? && err.value.MulterError? && err.value.code !in {"LIMIT_FILE_SIZE", "LIMIT_FILE_COUNT"} ==>
      r.message == "Upload error: " + err.value.message
    ensures err.Some? && err.value.PlainError? ==> r.message == err.value.message
  {
    match err
    case None => Pass(())
    case Some(MulterError(code, message)) =>
      if code == "LIMIT_FILE_SIZE" then Respond(400, FileTooLargeMessage)
      else if code == "LIMIT_FILE_COUNT" then Respond(400, TooManyFilesMessage)
      else Respond(400, "Upload error: " + message)
    case Some(PlainError(message)) => Respond(400, message)
  }

  /** A file the filter rejects reaches the client as 400 with the list of allowed extensions. */
  lemma RejectedTypeReported(originalName: string, mimetype: string)
    requires FileFilter(originalName, mimetype).Rejected?
    ensures HandleUploadError(Some(PlainError(FileFilter(originalName, mimetype).message)))
      == Respond(400, InvalidTypeMessage())
  {
  }
}
