/** The document controller as operations on a store: the Document collection
    (a map from id to record) together with the set of paths present on disk.
    Each handler yields the new store and either its reply or the error it
    hands to the error middleware. The caller is `req.user?._id`, absent when
    no user is attached to the request. */
module DocumentController {
  import opened Wrappers
  import opened Documents
  import UploadMiddleware

  datatype Store = Store(docs: map<DocId, Document>, files: set<string>)

  /** Every record is filed under its own id. */
  predicate Keyed(s: Store) {
    forall k :: k in s.docs ==> s.docs[k].id == k
  }

  const NoFileMessage: string := "Please upload a file"
  const NotFoundMessage: string := "Document not found"
  const AccessDeniedMessage: string := "Not authorized to access this document"
  const DeleteDeniedMessage: string := "Not authorized to delete this document"
  const FileMissingMessage: string := "File not found on server"

  /** `document.user.toString() !== req.user?._id` fails, i.e. the caller owns it. */
  predicate Owns(caller: Option<UserId>, d: Document) {
    caller.Some? && d.owner == caller.value
  }

  // ---------------------------------------------------------------------------
  // Upload and processing
  // ---------------------------------------------------------------------------

  /** `uploadDocument`. By the time the handler runs multer has written the
      file, so its path is on disk whatever the handler then decides. `id` is
      the fresh ObjectId the new record receives. */
  function Upload(s: Store, file: Option<UploadMiddleware.StoredFile>, caller: Option<UserId>, id: DocId, now: int)
    : (r: Step<Store, Reply<Document>>)
    requires id !in s.docs
    ensures file.None? ==> r == Step(s, Err(Http(400, NoFileMessage)))
    ensures file.Some? ==> r.state.files == s.files + {file.value.path}
    ensures r.result.Err? ==> r.state.docs == s.docs
    ensures r.result.Ok? <==>
      && file.Some? && caller.Some? && file.value.filename != ""
      && file.value.originalname != "" && file.value.mimetype != "" && file.value.path != ""
    ensures r.result.Ok? ==>
      var d := r.result.value.data;
      && r.result.value.status == 201
      && r.state.docs == s.docs[id := d]
      && |r.state.docs| == |s.docs| + 1
      && d.id == id && Owns(caller, d) && d.status == Queued
      && d.name == file.value.filename && d.originalName == file.value.originalname
      && d.size == file.value.size && d.kind == file.value.mimetype && d.path == file.value.path
      && d.createdAt == now && d.processedAt.None?
  {
    match file
    case None => Step(s, Err(Http(400, NoFileMessage)))
    case Some(f) =>
      var written := s.(files := s.files + {f.path});
      var draft := Draft(f.filename, f.originalname, f.size, f.mimetype, f.path, caller, Queued);
      UploadedDraftValid(f, caller);
      match Create(draft, id, now)
      case Err(e) => Step(written, Err(e))
      case Ok(d) => Step(written.(docs := s.docs[id := d]), Ok(Reply(201, d)))
  }

  /** The record built from multer's file passes the required validators
      exactly when the request has a user and none of the file's names, type
      and path is empty. */
  lemma UploadedDraftValid(f: UploadMiddleware.StoredFile, caller: Option<UserId>)
    ensures RequiredErrors(Draft(f.filename, f.originalname, f.size, f.mimetype, f.path, caller, Queued)) == {}
        <==> f.filename != "" && f.originalname != "" && f.mimetype != "" && f.path != "" && caller.Some?
  {
  }

  /** The delayed processing step: the record created by the upload is marked
      processed and saved; saving a record that has been deleted meanwhile
      fails. */
  function Process(s: Store, id: DocId, now: int): (r: Step<Store, Document>)
    ensures id !in s.docs ==> r == Step(s, Err(MissingRecord))
    ensures id in s.docs ==> r.result.Ok? && r.state.files == s.files
    ensures id in s.docs ==>
      && r.state.docs.Keys == s.docs.Keys
      && r.state.docs[id].status == Processed && r.state.docs[id].processedAt == Some(now)
      && (forall k :: k in s.docs && k != id ==> r.state.docs[k] == s.docs[k])
    ensures id in s.docs ==>
      r.state.docs[id] == MarkProcessed(s.docs[id], now) && r.result == Ok(r.state.docs[id])
  {
    if id !in s.docs then Step(s, Err(MissingRecord))
    else
      var d := MarkProcessed(s.docs[id], now);
      Step(s.(docs := s.docs[id := d]), Ok(d))
  }

  // ---------------------------------------------------------------------------
  // Listing
  // ---------------------------------------------------------------------------

  datatype Listing = Listing(count: nat, data: seq<Document>)

  predicate NewestFirst(xs: seq<Document>) {
    forall i, j :: 0 <= i < j < |xs| ==> xs[i].createdAt >= xs[j].createdAt
  }

  predicate DistinctIds(xs: seq<Document>) {
    forall i, j :: 0 <= i < j < |xs| ==> xs[i].id != xs[j].id
  }

  /** Place `d` in a newest-first list, before the first record that is not newer. */
  function InsertByNewest(xs: seq<Document>, d: Document): (r: seq<Document>)
    requires NewestFirst(xs)
    requires DistinctIds(xs) && forall i :: 0 <= i < |xs| ==> xs[i].id != d.id
    ensures |r| == |xs| + 1
    ensures NewestFirst(r) && DistinctIds(r)
    ensures forall x :: x in r <==> x == d || x in xs
  {
    if |xs| == 0 then [d]
    else if d.createdAt >= xs[0].createdAt then
      PrependKeepsOrder(d, xs);
      [d] + xs
    else
      var rest := InsertByNewest(xs[1..], d);
      assert forall x :: x in xs[1..] ==> x in xs;
      PrependKeepsOrder(xs[0], rest);
      [xs[0]] + rest
  }

  /** A record no older than, and with an id different from, every record of a
      newest-first list can go in front of it. */
  lemma PrependKeepsOrder(x: Document, xs: seq<Document>)
    requires NewestFirst(xs) && DistinctIds(xs)
    requires forall y :: y in xs ==> y.createdAt <= x.createdAt && y.id != x.id
    ensures NewestFirst([x] + xs) && DistinctIds([x] + xs)
  {
    var r := [x] + xs;
    forall i, j | 0 <= i < j < |r| ensures r[i].createdAt >= r[j].createdAt && r[i].id != r[j].id {
      assert r[j] == xs[j - 1];
      if i > 0 {
        assert r[i] == xs[i - 1];
      } else {
        assert xs[j - 1] in xs;
      }
    }
  }

  /** `getDocuments`: the caller's records, newest first, and their number. */
  method List(s: Store, caller: Option<UserId>) returns (r: Reply<Listing>)
    requires Keyed(s)
    ensures r.status == 200 && r.data.count == |r.data.data|
    ensures forall d :: d in r.data.data <==> d in s.docs.Values && Owns(caller, d)
    ensures NewestFirst(r.data.data) && DistinctIds(r.data.data)
  {
    var out: seq<Document> := [];
    var todo := s.docs.Keys;
    while todo != {}
      invariant todo <= s.docs.Keys
      invariant NewestFirst(out) && DistinctIds(out)
      invariant forall i :: 0 <= i < |out| ==> out[i].id in s.docs && out[i].id !in todo
      invariant forall d :: d in out <==> d.id in s.docs.Keys - todo && s.docs[d.id] == d && Owns(caller, d)
      decreases |todo|
    {
      var k :| k in todo;
      var d := s.docs[k];
      if Owns(caller, d) {
        out := InsertByNewest(out, d);
      }
      todo := todo - {k};
    }
    forall d ensures d in out <==> d in s.docs.Values && Owns(caller, d) {
      if d in s.docs.Values {
        var k :| k in s.docs && s.docs[k] == d;
        assert d.id == k;
      }
    }
    r := Reply(200, Listing(|out|, out));
  }

  // ---------------------------------------------------------------------------
  // Access to a single record
  // ---------------------------------------------------------------------------

  /** The lookup and ownership check shared by the single-record handlers:
      a missing record is a 404, checked before ownership, which gives 401
      with the handler's own message. */
  function Authorize(s: Store, id: DocId, caller: Option<UserId>, denied: string): (r: Result<Document>)
    ensures id !in s.docs ==> r == Err(Http(404, NotFoundMessage))
    ensures id in s.docs && !Owns(caller, s.docs[id]) ==> r == Err(Http(401, denied))
    ensures r.Ok? <==> id in s.docs && Owns(caller, s.docs[id])
    ensures r.Ok? ==> r.value == s.docs[id]
  {
    if id !in s.docs then Err(Http(404, NotFoundMessage))
    else if !Owns(caller, s.docs[id]) then Err(Http(401, denied))
    else Ok(s.docs[id])
  }

  /** `getDocument`. */
  function Get(s: Store, id: DocId, caller: Option<UserId>): (r: Result<Reply<Document>>)
    ensures r.Ok? <==> id in s.docs && Owns(caller, s.docs[id])
    ensures r.Ok? ==> r.value == Reply(200, s.docs[id])
    ensures r.Err? ==> Authorize(s, id, caller, AccessDeniedMessage) == Err(r.error)
  {
    var d :- Authorize(s, id, caller, AccessDeniedMessage);
    Ok(Reply(200, d))
  }

  /** `deleteDocument`: the owner's delete removes the record and, when it is
      on disk, its file; a refused delete changes nothing. */
  function Delete(s: Store, id: DocId, caller: Option<UserId>): (r: Step<Store, Reply<()>>)
    ensures r.result.Err? ==> r.state == s && Authorize(s, id, caller, DeleteDeniedMessage) == Err(r.result.error)
    ensures r.result.Ok? <==> id in s.docs && Owns(caller, s.docs[id])
    ensures r.result.Ok? ==>
      && r.result.value == Reply(200, ())
      && r.state.docs == s.docs - {id}
      && r.state.files == s.files - {s.docs[id].path}
  {
    match Authorize(s, id, caller, DeleteDeniedMessage)
    case Err(e) => Step(s, Err(e))
    case Ok(d) => Step(Store(s.docs - {id}, s.files - {d.path}), Ok(Reply(200, ())))
  }

  /** What `res.download` sends: the stored file under its original name. */
  datatype FileReply = FileReply(path: string, downloadName: string)

  /** `downloadDocument`: the file's presence is checked only once ownership
      is established. */
  function Download(s: Store, id: DocId, caller: Option<UserId>): (r: Result<FileReply>)
    ensures Authorize(s, id, caller, AccessDeniedMessage).Err? ==>
      r == Err(Authorize(s, id, caller, AccessDeniedMessage).error)
    ensures Authorize(s, id, caller, AccessDeniedMessage).Ok? && s.docs[id].path !in s.files ==>
      r == Err(Http(404, FileMissingMessage))
    ensures r.Ok? <==> id in s.docs && Owns(caller, s.docs[id]) && s.docs[id].path in s.files
    ensures r.Ok? ==> r.value == FileReply(s.docs[id].path, s.docs[id].originalName)
  {
    var d :- Authorize(s, id, caller, AccessDeniedMessage);
    if d.path !in s.files then Err(Http(404, FileMissingMessage))
    else Ok(FileReply(d.path, d.originalName))
  }

  // ---------------------------------------------------------------------------
  // Questions
  // ---------------------------------------------------------------------------

  datatype Citation = Citation(text: string, page: nat, confidence: real)
  datatype Answer = Answer(question: Option<string>, answer: string, citations: seq<Citation>)

  const AnswerHead: string := "Based on the document \""
  const AnswerMiddle: string := "\", the answer to your question \""
  const AnswerTail: string := "\" would be found in the document content. This is a mock response."
  const SampleCitation: Citation := Citation("Sample citation from the document", 1, 0.95)

  /** How a template literal renders the body's `question`; an absent one
      renders as "undefined". */
  function Render(question: Option<string>): string {
    question.GetOr("undefined")
  }

  /** The mock answer for a document's original name and a question. */
  function AnswerText(originalName: string, question: Option<string>): (r: string)
    ensures |r| == |AnswerHead| + |originalName| + |AnswerMiddle| + |Render(question)| + |AnswerTail|
  {
    AnswerHead + originalName + AnswerMiddle + Render(question) + AnswerTail
  }

  /** The document's name and the question can be read back from the answer:
      they sit between the fixed pieces of the template. */
  lemma AnswerEmbeds(originalName: string, question: Option<string>)
    ensures var a := AnswerText(originalName, question);
      var i := |AnswerHead|;
      var j := i + |originalName|;
      var k := j + |AnswerMiddle|;
      && a[..i] == AnswerHead
      && a[i..j] == originalName
      && a[j..k] == AnswerMiddle
      && a[k..k + |Render(question)|] == Render(question)
      && a[k + |Render(question)|..] == AnswerTail
  {
  }

  /** For one document, different questions get different answers. */
  lemma AnswerDeterminesQuestion(originalName: string, q1: Option<string>, q2: Option<string>)
    requires AnswerText(originalName, q1) == AnswerText(originalName, q2)
    ensures Render(q1) == Render(q2)
  {
    AnswerEmbeds(originalName, q1);
    AnswerEmbeds(originalName, q2);
  }

  /** `askQuestion`: the reply echoes the question, carries the mock answer
      and exactly one citation. */
  function Ask(s: Store, id: DocId, caller: Option<UserId>, question: Option<string>): (r: Result<Reply<Answer>>)
    ensures r.Err? ==> Authorize(s, id, caller, AccessDeniedMessage) == Err(r.error)
    ensures r.Ok? <==> id in s.docs && Owns(caller, s.docs[id])
    ensures r.Ok? ==>
      && r.value.status == 200
      && r.value.data.question == question
      && r.value.data.answer == AnswerText(s.docs[id].originalName, question)
      && r.value.data.citations == [SampleCitation]
  {
    var d :- Authorize(s, id, caller, AccessDeniedMessage);
    Ok(Reply(200, Answer(question, AnswerText(d.originalName, question), [SampleCitation])))
  }

  // ---------------------------------------------------------------------------
  // Properties across handlers
  // ---------------------------------------------------------------------------

  /** get, delete, download and ask refuse in the same situations with the
      same status: 404 for a missing record, before any ownership check, and
      401 for someone else's record or a request without a user. */
  lemma AccessOrder(s: Store, id: DocId, caller: Option<UserId>, q: Option<string>)
    ensures id !in s.docs ==>
      && Get(s, id, caller) == Err(Http(404, NotFoundMessage))
      && Delete(s, id, caller) == Step(s, Err(Http(404, NotFoundMessage)))
      && Download(s, id, caller) == Err(Http(404, NotFoundMessage))
      && Ask(s, id, caller, q) == Err(Http(404, NotFoundMessage))
    ensures id in s.docs && !Owns(caller, s.docs[id]) ==>
      && Get(s, id, caller) == Err(Http(401, AccessDeniedMessage))
      && Delete(s, id, caller) == Step(s, Err(Http(401, DeleteDeniedMessage)))
      && Download(s, id, caller) == Err(Http(401, AccessDeniedMessage))
      && Ask(s, id, caller, q) == Err(Http(401, AccessDeniedMessage))
  {
  }

  /** Every handler keeps each record filed under its own id. */
  lemma HandlersKeepKeyed(s: Store, file: Option<UploadMiddleware.StoredFile>, caller: Option<UserId>,
                          id: DocId, now: int)
    requires Keyed(s)
    ensures id !in s.docs ==> Keyed(Upload(s, file, caller, id, now).state)
    ensures Keyed(Process(s, id, now).state)
    ensures Keyed(Delete(s, id, caller).state)
  {
  }

  /** The uploader can read back what the upload stored, and can download it. */
  lemma UploadThenGet(s: Store, f: UploadMiddleware.StoredFile, owner: UserId, id: DocId, now: int)
    requires id !in s.docs
    requires Upload(s, Some(f), Some(owner), id, now).result.Ok?
    ensures var after := Upload(s, Some(f), Some(owner), id, now);
      && Get(after.state, id, Some(owner)) == Ok(Reply(200, after.result.value.data))
      && Download(after.state, id, Some(owner)) == Ok(FileReply(f.path, f.originalname))
  {
  }

  /** Once deleted, a record is gone for everyone, its owner included. */
  lemma DeleteThenGet(s: Store, id: DocId, caller: Option<UserId>, anyone: Option<UserId>)
    requires Delete(s, id, caller).result.Ok?
    ensures Get(Delete(s, id, caller).state, id, anyone) == Err(Http(404, NotFoundMessage))
  {
  }

  /** Processing after the record was deleted fails, and changes nothing. */
  lemma ProcessAfterDelete(s: Store, id: DocId, caller: Option<UserId>, now: int)
    requires Delete(s, id, caller).result.Ok?
    ensures Process(Delete(s, id, caller).state, id, now)
        == Step(Delete(s, id, caller).state, Err(MissingRecord))
  {
  }
}
