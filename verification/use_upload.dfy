/** The upload hook of the web client: the mock upload that builds a new
    document entry for a picked file, and the cache update that puts it in
    front of the cached document list.

    The clock is two parameters: the milliseconds since the epoch and the
    ISO-8601 rendering of the same instant. The size label
    (`(size / 1024 / 1024).toFixed(1) + " MB"`) is floating-point display
    and is passed in already rendered; the two-second delay is left out.
 */
module UseUpload {
  import opened Wrappers
  import Text

  /** The fields of a browser `File` that the hook reads. */
  datatype FileInfo = FileInfo(name: string, size: nat, mime: string)

  datatype ClientDocument = ClientDocument(
    id: string, name: string, status: string, uploadedAt: string, size: string, kind: string)

  const QueuedStatus: string := "queued"
  const UnknownType: string := "UNKNOWN"

  /** `file.type || file.name.split('.').pop()?.toUpperCase() || 'UNKNOWN'`:
      the MIME type, else the upper-cased text after the last dot (the whole
      name when it has none), else `UNKNOWN` when that text is empty. */
  function TypeOf(file: FileInfo): (r: string)
    ensures r != ""
    ensures file.mime != "" ==> r == file.mime
    ensures file.mime == "" && Text.LastPiece(file.name, '.') != "" ==>
      r == Text.ToUpper(Text.LastPiece(file.name, '.'))
    ensures file.mime == "" && Text.LastPiece(file.name, '.') == "" ==> r == UnknownType
  {
    if file.mime != "" then file.mime
    else
      var ext := Text.ToUpper(Text.LastPiece(file.name, '.'));
      if ext != "" then ext else UnknownType
  }

  /** The date part of an ISO-8601 timestamp: `iso.split('T')[0]`, the text
      before the first `T` (all of it when there is none). */
  function DatePart(iso: string): (r: string)
    ensures 'T' !in r
    ensures r <= iso && (|r| < |iso| ==> iso[|r|] == 'T')
  {
    Text.FirstPieceIsPrefix(iso, 'T');
    Text.Split(iso, 'T')[0]
  }

  function NewDocument(file: FileInfo, now: nat, isoNow: string, sizeLabel: string): (d: ClientDocument)
    ensures d.name == file.name && d.status == QueuedStatus
    ensures Text.AllDigits(d.id) && Text.DecimalValue(d.id) == now
    ensures d.uploadedAt == DatePart(isoNow) && d.size == sizeLabel
    ensures d.kind == TypeOf(file) && d.kind != ""
  {
    Text.DecimalRoundTrip(now);
    ClientDocument(Text.NatToDecimal(now), file.name, QueuedStatus, DatePart(isoNow), sizeLabel, TypeOf(file))
  }

  /** `onSuccess`: the new document goes in front of the cached list; an
      absent list counts as empty. */
  function Prepend(cached: Option<seq<ClientDocument>>, d: ClientDocument): (r: seq<ClientDocument>)
    ensures |r| == |cached.GetOr([])| + 1
    ensures r[0] == d
    ensures forall i :: 0 <= i < |cached.GetOr([])| ==> r[i + 1] == cached.GetOr([])[i]
  {
    [d] + cached.GetOr([])
  }

  // ---------------------------------------------------------------------------
  // Properties
  // ---------------------------------------------------------------------------

  /** Dropping the new head gives back the old list. */
  lemma PrependThenDrop(cached: Option<seq<ClientDocument>>, d: ClientDocument)
    ensures Prepend(cached, d)[1..] == cached.GetOr([])
  {
    var r := Prepend(cached, d);
    assert forall i :: 0 <= i < |r[1..]| ==> r[1..][i] == r[i + 1];
  }

  /** Two uploads in a row leave the later one first. */
  lemma TwoUploads(cached: Option<seq<ClientDocument>>, a: ClientDocument, b: ClientDocument)
    ensures Prepend(Some(Prepend(cached, a)), b) == [b, a] + cached.GetOr([])
  {
    PrependThenDrop(cached, a);
    PrependThenDrop(Some(Prepend(cached, a)), b);
  }

  /** Uploads at different instants get different ids. */
  lemma IdsFollowClock(f: FileInfo, g: FileInfo, m: nat, n: nat, i: string, j: string, s: string, t: string)
    requires m != n
    ensures NewDocument(f, m, i, s).id != NewDocument(g, n, j, t).id
  {
    if Text.NatToDecimal(m) == Text.NatToDecimal(n) {
      Text.DecimalInjective(m, n);
    }
  }

  /** With no MIME type: a name without a dot gives the whole name upper-cased;
      an empty name and a name ending in a dot both give `UNKNOWN`. */
  lemma TypeFallbacks(name: string)
    ensures '.' !in name && name != "" ==> TypeOf(FileInfo(name, 0, "")) == Text.ToUpper(name)
    ensures name == "" ==> TypeOf(FileInfo(name, 0, "")) == UnknownType
    ensures |name| > 0 && name[|name| - 1] == '.' ==> TypeOf(FileInfo(name, 0, "")) == UnknownType
  {
    if '.' !in name {
      Text.SplitJoin([name], '.');
      assert Text.Join([name], '.') == name;
    }
    if |name| > 0 && name[|name| - 1] == '.' {
      LastPieceAfterTrailingSeparator(name, '.');
    }
  }

  /** A string ending in the separator splits with an empty last piece. */
  lemma LastPieceAfterTrailingSeparator(s: string, sep: char)
    requires |s| > 0 && s[|s| - 1] == sep
    ensures Text.LastPiece(s, sep) == ""
  {
    LastPieceOfSuffix(s[..|s| - 1], sep, "");
    assert s[..|s| - 1] + [sep] + "" == s;
  }

  /** The text after the last separator is the last piece. */
  lemma {:induction false} LastPieceOfSuffix(s: string, sep: char, tail: string)
    requires sep !in tail
    ensures Text.LastPiece(s + [sep] + tail, sep) == tail
    decreases |s|
  {
    var whole := s + [sep] + tail;
    Text.SplitJoin([tail], sep);
    assert Text.Join([tail], sep) == tail;
    if |s| == 0 {
      assert whole == [sep] + tail;
      assert whole[1..] == tail;
    } else {
      assert whole[1..] == s[1..] + [sep] + tail;
      LastPieceOfSuffix(s[1..], sep, tail);
      var rest := Text.Split(whole[1..], sep);
      if s[0] != sep {
        CountPositive(s[1..] + [sep], sep);
        CountAppend(s[1..] + [sep], tail, sep);
        assert whole[1..] == (s[1..] + [sep]) + tail;
        assert |rest| >= 2;
      }
    }
  }

  lemma {:induction false} CountPositive(s: string, c: char)
    requires |s| > 0 && s[|s| - 1] == c
    ensures Text.Count(s, c) >= 1
    decreases |s|
  {
    if |s| > 1 && s[0] != c {
      CountPositive(s[1..], c);
    }
  }

  lemma {:induction false} CountAppend(s: string, t: string, c: char)
    ensures Text.Count(s + t, c) == Text.Count(s, c) + Text.Count(t, c)
    decreases |s|
  {
    if |s| > 0 {
      assert (s + t)[1..] == s[1..] + t;
      CountAppend(s[1..], t, c);
    } else {
      assert s + t == t;
    }
  }

  /** With no MIME type, the upper-cased extension is the type, whatever
      precedes the last dot. */
  lemma TypeOfExtension(base: string, ext: string, size: nat)
    requires '.' !in ext && ext != ""
    ensures TypeOf(FileInfo(base + "." + ext, size, "")) == Text.ToUpper(ext)
  {
    LastPieceOfSuffix(base, '.', ext);
    assert base + "." + ext == base + ['.'] + ext;
  }

  lemma PdfWithoutMime(base: string)
    ensures TypeOf(FileInfo(base + ".pdf", 0, "")) == "PDF"
  {
    TypeOfExtension(base, "pdf", 0);
    assert base + ".pdf" == base + "." + "pdf";
  }
}
