/** The Document collection's record: the status enum, the required paths,
    the defaults a new record receives, and the change a finished processing
    run makes. Dates are integers (milliseconds since the epoch) supplied by
    the caller. */
module Documents {
  import opened Wrappers

  type DocId = string
  type UserId = string

  /** The schema's status enum. */
  datatype Status = Queued | Processing | Processed | Errored

  function StatusName(s: Status): string {
    match s
    case Queued => "queued"
    case Processing => "processing"
    case Processed => "processed"
    case Errored => "error"
  }

  /** The enum validator: exactly the four listed names are statuses. */
  function ParseStatus(s: string): Option<Status> {
    if s == "queued" then Some(Queued)
    else if s == "processing" then Some(Processing)
    else if s == "processed" then Some(Processed)
    else if s == "error" then Some(Errored)
    else None
  }

  /** A status is stored by its name and read back unchanged, and the enum
      admits no other name. */
  lemma StatusRoundTrip(st: Status, s: string)
    ensures ParseStatus(StatusName(st)) == Some(st)
    ensures ParseStatus(s).Some? ==> StatusName(ParseStatus(s).value) == s
    ensures ParseStatus(s).Some? <==> s in {"queued", "processing", "processed", "error"}
  {
  }

  const DefaultStatus: Status := Queued

  /** One element of `entities`; its sub-paths carry no validators. */
  datatype Entity = Entity(text: Option<string>, kind: Option<string>, confidence: Option<real>)

  /** A stored document. `owner` is the `user` path. */
  datatype Document = Document(
    id: DocId,
    name: string,
    originalName: string,
    status: Status,
    size: nat,
    kind: string,
    path: string,
    owner: UserId,
    uploadedAt: int,
    processedAt: Option<int>,
    entities: seq<Entity>,
    content: Option<string>,
    metadata: Option<map<string, string>>,
    createdAt: int,
    updatedAt: int)

  /** The values handed to `Document.create`; `owner` is absent when the
      request carries no user. */
  datatype Draft = Draft(
    name: string,
    originalName: string,
    size: nat,
    kind: string,
    path: string,
    owner: Option<UserId>,
    status: Status)

  /** The paths whose `required` validator fails; a required string fails
      when it is empty. `size` is required too, but it is a `nat` that multer
      always supplies, so its validator never fails and it never appears. */
  function RequiredErrors(d: Draft): (errs: set<string>)
    ensures "name" in errs <==> d.name == ""
    ensures "originalName" in errs <==> d.originalName == ""
    ensures "type" in errs <==> d.kind == ""
    ensures "path" in errs <==> d.path == ""
    ensures "user" in errs <==> d.owner.None?
    ensures errs <= {"name", "originalName", "type", "path", "user"}
  {
    (if d.name == "" then {"name"} else {})
    + (if d.originalName == "" then {"originalName"} else {})
    + (if d.kind == "" then {"type"} else {})
    + (if d.path == "" then {"path"} else {})
    + (if d.owner.None? then {"user"} else {})
  }

  /** `Document.create`: validation, then a record with the defaults filled in.
      `uploadedAt`, `createdAt` and `updatedAt` all take the creation time; the
      optional paths start out absent and `entities` starts out empty. */
  function Create(d: Draft, id: DocId, now: int): (r: Result<Document>)
    ensures r.Err? <==> RequiredErrors(d) != {}
    ensures r.Err? ==> r.error == Invalid(RequiredErrors(d))
    ensures r.Ok? ==>
      && r.value.id == id
      && r.value.name == d.name && r.value.originalName == d.originalName
      && r.value.size == d.size && r.value.kind == d.kind && r.value.path == d.path
      && Some(r.value.owner) == d.owner
      && r.value.status == d.status
      && r.value.uploadedAt == now && r.value.createdAt == now && r.value.updatedAt == now
      && r.value.processedAt.None? && r.value.entities == []
      && r.value.content.None? && r.value.metadata.None?
  {
    var errs := RequiredErrors(d);
    if errs != {} then Err(Invalid(errs))
    else Ok(Document(id, d.name, d.originalName, d.status, d.size, d.kind, d.path, d.owner.value,
                     now, None, [], None, None, now, now))
  }

  /** The processing step: status becomes processed, processedAt is set, and
      the save stamps updatedAt; every other path keeps its value. */
  function MarkProcessed(d: Document, now: int): (r: Document)
    ensures r.status == Processed && r.processedAt == Some(now) && r.updatedAt == now
    ensures r.(status := d.status, processedAt := d.processedAt, updatedAt := d.updatedAt) == d
  {
    d.(status := Processed, processedAt := Some(now), updatedAt := now)
  }

  /** Processing is idempotent up to the clock: a second run at the same time
      changes nothing. */
  lemma MarkProcessedTwice(d: Document, now: int)
    ensures MarkProcessed(MarkProcessed(d, now), now) == MarkProcessed(d, now)
  {
  }
}
