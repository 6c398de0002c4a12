/** The upload middleware: the storage destination, the stored file name, the
    MIME allow-list and the size limit. Environment variables, the clock and
    the random source are parameters; `Date.now()` is a natural number and
    `Math.round(Math.random() * 1e9)` is a natural number up to 10^9. */
module UploadMiddleware {
  import opened Wrappers
  import opened Text

  // ---------------------------------------------------------------------------
  // Destination and size limit
  // ---------------------------------------------------------------------------

  const DefaultDestination: string := "./uploads"
  const DefaultMaxFileSize: string := "10485760"

  /** `process.env.X || fallback`: an unset or empty variable gives the fallback. */
  function EnvOr(env: Option<string>, fallback: string): (r: string)
    ensures env.Some? && env.value != "" ==> r == env.value
    ensures env.None? || env.value == "" ==> r == fallback
  {
    if env.Some? && env.value != "" then env.value else fallback
  }

  /** The directory files are written to. */
  function Destination(uploadPath: Option<string>): (r: string)
    ensures uploadPath.None? ==> r == "./uploads"
    ensures r != ""
  {
    EnvOr(uploadPath, DefaultDestination)
  }

  /** The `fileSize` limit: `parseInt(process.env.MAX_FILE_SIZE || '10485760')`;
      `None` is `NaN`, which no file size exceeds. */
  function MaxFileSize(maxFileSize: Option<string>): Option<int> {
    ParseInt(EnvOr(maxFileSize, DefaultMaxFileSize))
  }

  /** The default limit's literal is the decimal rendering of ten mebibytes. */
  lemma DefaultLimitLiteral()
    ensures NatToDecimal(10 * 1024 * 1024) == DefaultMaxFileSize
  {
    assert NatToDecimal(1) == "1";
    AppendDigit(1, 0, "1", "10");
    AppendDigit(10, 4, "10", "104");
    AppendDigit(104, 8, "104", "1048");
    AppendDigit(1048, 5, "1048", "10485");
    AppendDigit(10485, 7, "10485", "104857");
    AppendDigit(104857, 6, "104857", "1048576");
    AppendDigit(1048576, 0, "1048576", "10485760");
  }

  lemma AppendDigit(n: nat, d: nat, s: string, t: string)
    requires 1 <= n && d < 10 && NatToDecimal(n) == s
    requires t == s + [DigitChar(d)]
    ensures NatToDecimal(10 * n + d) == t
  {
    assert (10 * n + d) / 10 == n;
    assert (10 * n + d) % 10 == d;
  }

  /** Without an override the limit is ten mebibytes; a decimal override is
      read back as written. */
  lemma MaxFileSizeDefault(n: nat)
    ensures MaxFileSize(None) == Some(10 * 1024 * 1024)
    ensures MaxFileSize(Some("")) == Some(10485760)
    ensures MaxFileSize(Some(NatToDecimal(n))) == Some(n)
  {
    DefaultLimitLiteral();
    ParseIntOfDecimal(10485760);
    ParseIntOfDecimal(n);
  }

  /** A file larger than the limit is cut off with multer's LIMIT_FILE_SIZE. */
  predicate TooLarge(size: nat, limit: Option<int>) {
    limit.Some? && size > limit.value
  }

  // ---------------------------------------------------------------------------
  // File filter
  // ---------------------------------------------------------------------------

  const Pdf: string := "application/pdf"
  const Doc: string := "application/msword"
  const Docx: string := "application/vnd.openxmlformats-officedocument.wordprocessingml.document"
  const AllowedTypes: seq<string> := [Pdf, Doc, Docx]
  const InvalidTypeMessage: string := "Invalid file type. Only PDF, DOC, and DOCX are allowed"

  /** `fileFilter`: a file is accepted exactly when its MIME type is one of the
      three document types; any other type is refused with a 400. */
  function FileFilter(mimetype: string): (r: Result<bool>)
    ensures r.Ok? <==> mimetype == Pdf || mimetype == Doc || mimetype == Docx
    ensures r.Ok? ==> r.value
    ensures r.Err? ==> r.error == Http(400, InvalidTypeMessage)
  {
    if mimetype in AllowedTypes then Ok(true) else Err(Http(400, InvalidTypeMessage))
  }

  // ---------------------------------------------------------------------------
  // Node's path.extname (POSIX)
  // ---------------------------------------------------------------------------

  /** The end of `p` once trailing '/' are dropped. */
  function TrailEnd(p: string, j: nat): (e: nat)
    requires j <= |p|
    ensures e <= j
    ensures e == 0 || p[e - 1] != '/'
    ensures forall k :: e <= k < j ==> p[k] == '/'
  {
    if j == 0 || p[j - 1] != '/' then j else TrailEnd(p, j - 1)
  }

  /** The last path segment, trailing separators removed. */
  function Basename(p: string): (b: string)
    ensures '/' !in b
    ensures '/' !in p ==> b == p
  {
    var e := TrailEnd(p, |p|);
    var q := p[..e];
    match LastIndex(q, '/')
    case Some(i) => q[i + 1..]
    case None => q
  }

  /** The extension of a single segment: from its last '.' on, except that a
      segment whose only leading '.' is its last, and the segment "..", have
      none. */
  function SegmentExt(b: string): (r: string)
    ensures r == "" || (r[0] == '.' && forall i :: 0 < i < |r| ==> r[i] != '.')
    ensures forall i :: 0 <= i < |r| ==> r[i] in b
  {
    match LastIndex(b, '.')
    case None => ""
    case Some(k) => if k == 0 || b == ".." then "" else b[k..]
  }

  /** `path.extname`. */
  function Extname(p: string): (r: string)
    ensures r == "" || (r[0] == '.' && forall i :: 0 < i < |r| ==> r[i] != '.')
    ensures '/' !in r
  {
    var b := Basename(p);
    var r := SegmentExt(b);
    assert forall i :: 0 <= i < |r| ==> r[i] != '/' by {
      forall i | 0 <= i < |r| ensures r[i] != '/' {
        assert r[i] in b;
      }
    }
    r
  }

  /** The last '.' of a name is the one after which no '.' follows. */
  lemma LastIndexAt(s: string, c: char, k: nat)
    requires k < |s| && s[k] == c
    requires forall j :: k < j < |s| ==> s[j] != c
    ensures LastIndex(s, c) == Some(k)
  {
  }

  /** Values of `path.extname` as Node documents them. */
  lemma ExtnameOfDoubleExtension()
    ensures Extname("index.coffee.md") == ".md"
  {
    var p := "index.coffee.md";
    assert '/' !in p;
    assert Basename(p) == p;
    assert p[12] == '.' && p[13] == 'm' && p[14] == 'd';
    LastIndexAt(p, '.', 12);
    assert SegmentExt(p) == p[12..];
    assert p[12..] == ".md";
  }

  lemma ExtnameOfTrailingDot()
    ensures Extname("index.") == "."
  {
    LastIndexAt("index.", '.', 5);
  }

  lemma ExtnameOfNoDot()
    ensures Extname("index") == ""
  {
    assert '.' !in "index";
  }

  lemma ExtnameOfDotFile()
    ensures Extname(".index") == ""
  {
    LastIndexAt(".index", '.', 0);
  }

  lemma ExtnameOfDirectory()
    ensures Extname("a/b.pdf/") == ".pdf"
  {
    var p := "a/b.pdf/";
    assert TrailEnd(p, 8) == 7;
    var q := p[..7];
    assert q == "a/b.pdf";
    LastIndexAt(q, '/', 1);
    assert q[2..] == "b.pdf";
    LastIndexAt("b.pdf", '.', 1);
    assert "b.pdf"[1..] == ".pdf";
  }

  // ---------------------------------------------------------------------------
  // Stored file name
  // ---------------------------------------------------------------------------

  /** The `filename` callback: field name, timestamp and random suffix joined
      by '-', followed by the original name's extension. */
  function StoredFilename(fieldname: string, now: nat, random: nat, originalname: string): string {
    fieldname + "-" + NatToDecimal(now) + "-" + NatToDecimal(random) + Extname(originalname)
  }

  /** The stored name keeps the original extension, provided the field name
      holds no '.' and no '/'. */
  lemma StoredFilenameKeepsExtension(fieldname: string, now: nat, random: nat, originalname: string)
    requires '.' !in fieldname && '/' !in fieldname
    ensures Extname(StoredFilename(fieldname, now, random, originalname)) == Extname(originalname)
  {
    var prefix := fieldname + "-" + NatToDecimal(now) + "-" + NatToDecimal(random);
    PrefixFree(fieldname, NatToDecimal(now), NatToDecimal(random));
    var ext := Extname(originalname);
    assert StoredFilename(fieldname, now, random, originalname) == prefix + ext;
    NoSlashAppend(prefix, ext);
    assert Basename(prefix + ext) == prefix + ext;
    SegmentExtAfterPrefix(prefix, ext);
  }

  /** A segment made of a dot-free prefix and an extension has that extension. */
  lemma SegmentExtAfterPrefix(prefix: string, ext: string)
    requires |prefix| > 0 && '.' !in prefix
    requires ext == "" || (ext[0] == '.' && forall i :: 0 < i < |ext| ==> ext[i] != '.')
    ensures SegmentExt(prefix + ext) == ext
  {
    var s := prefix + ext;
    if ext == "" {
      assert s == prefix;
    } else {
      assert s[|prefix|] == '.';
      assert forall j :: |prefix| < j < |s| ==> s[j] == ext[j - |prefix|];
      LastIndexAt(s, '.', |prefix|);
      assert s[0] == prefix[0];
      assert s[|prefix|..] == ext;
    }
  }

  lemma NoSlashAppend(a: string, b: string)
    requires '/' !in a && '/' !in b
    ensures '/' !in a + b
  {
  }

  /** The prefix of a stored name holds no '.' and no '/', and does not start with '.'. */
  lemma PrefixFree(field: string, a: string, b: string)
    requires '.' !in field && '/' !in field && AllDigits(a) && AllDigits(b)
    ensures '.' !in field + "-" + a + "-" + b
    ensures '/' !in field + "-" + a + "-" + b
  {
    var s := field + "-" + a + "-" + b;
    forall i | 0 <= i < |s| ensures s[i] != '.' && s[i] != '/' {
      PrefixChar(field, a, b, i);
    }
  }

  /** Every character of the name's prefix is from the field name, a digit or '-'. */
  lemma PrefixChar(field: string, a: string, b: string, i: nat)
    requires '.' !in field && '/' !in field && AllDigits(a) && AllDigits(b)
    requires i < |field + "-" + a + "-" + b|
    ensures (field + "-" + a + "-" + b)[i] != '.'
    ensures (field + "-" + a + "-" + b)[i] != '/'
  {
    var s := field + "-" + a + "-" + b;
    if i < |field| {
      assert s[i] == field[i];
    } else if i == |field| || i == |field| + 1 + |a| {
    } else if i < |field| + 1 + |a| {
      assert s[i] == a[i - |field| - 1];
    } else {
      assert s[i] == b[i - |field| - 2 - |a|];
    }
  }

  // ---------------------------------------------------------------------------
  // Receiving a file
  // ---------------------------------------------------------------------------

  /** What the client sent for the file field. */
  datatype Incoming = Incoming(fieldname: string, originalname: string, mimetype: string, size: nat)

  /** What multer hands to the handler as `req.file` once it is on disk. */
  datatype StoredFile = StoredFile(
    fieldname: string,
    originalname: string,
    mimetype: string,
    size: nat,
    destination: string,
    filename: string,
    path: string)

  /** multer's pipeline for one file: the filter runs first, then the file is
      streamed to disk under its stored name and cut off if it passes the
      limit. `join` is Node's `path.join`. */
  function Receive(f: Incoming, uploadPath: Option<string>, maxFileSize: Option<string>,
                   now: nat, random: nat, join: (string, string) -> string): (r: Result<StoredFile>)
    ensures r.Ok? <==> f.mimetype in AllowedTypes && !TooLarge(f.size, MaxFileSize(maxFileSize))
    ensures f.mimetype !in AllowedTypes ==> r == Err(Http(400, InvalidTypeMessage))
    ensures f.mimetype in AllowedTypes && TooLarge(f.size, MaxFileSize(maxFileSize)) ==> r == Err(FileTooLarge)
    ensures r.Ok? ==>
      && r.value.originalname == f.originalname && r.value.mimetype == f.mimetype
      && r.value.size == f.size && r.value.fieldname == f.fieldname
      && r.value.destination == Destination(uploadPath)
      && r.value.filename == StoredFilename(f.fieldname, now, random, f.originalname)
      && r.value.path == join(r.value.destination, r.value.filename)
  {
    var accepted :- FileFilter(f.mimetype);
    if TooLarge(f.size, MaxFileSize(maxFileSize)) then Err(FileTooLarge)
    else
      var dest := Destination(uploadPath);
      var name := StoredFilename(f.fieldname, now, random, f.originalname);
      Ok(StoredFile(f.fieldname, f.originalname, f.mimetype, f.size, dest, name, join(dest, name)))
  }
}
