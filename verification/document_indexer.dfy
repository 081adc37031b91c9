/** utils/documentIndexer.js: `indexDocument` validates a document, embeds its content and saves it
    with defaults filled in; `batchIndexDocuments` indexes a list one document at a time. The
    embedding service, the document store, the clock and the random number are outside the model:
    their answers are inputs. */
module DocumentIndexer {
  import opened Results
  import opened JsStrings
  import opened KnowledgeBase

  /** A document as the caller gives it; an absent field is "". */
  datatype Document = Document(id: string, title: string, content: string, source: string,
                               url: string, date: string, docType: string)

  /** The record handed to the store (`docToStore`); `url` is null when the document has none. */
  datatype StoredDocument = StoredDocument(id: string, title: string, content: string, source: string,
                                           url: Option<string>, date: string, docType: string,
                                           embedding: Embedding, createdAt: string, updatedAt: string)

  /** `{ id, success, error }`; `id` is "" where the document had none. */
  datatype IndexResult = IndexResult(id: string, success: bool, error: Option<string>)

  /** The answers of the outside world to one indexing: the clock in milliseconds and as an ISO
      timestamp, the random number below 1000 used for generated ids, and the outcomes of the
      embedding request and of the save. */
  datatype World = World(millis: nat, isoNow: string, random: nat, embedding: Outcome<Embedding>, save: Outcome<Unit>)

  /** What one indexing did: its result, the text sent to the embedding service (if any) and the
      record sent to the store (if any). */
  datatype Indexing = Indexing(result: IndexResult, embeddingRequest: Option<string>, saved: Option<StoredDocument>)

  const MissingFieldsError := "Documento precisa ter título, conteúdo e fonte"

  /** The number of characters of the content that are embedded. */
  const EmbeddingInputLimit: nat := 8000

  /** Title, content and source are all present. */
  predicate HasRequiredFields(doc: Document) {
    doc.title != "" && doc.content != "" && doc.source != ""
  }

  /** The id generated for a document without one: `doc-<millis>-<random>`. */
  function GeneratedId(w: World): (r: string)
    ensures StartsWith(r, "doc-")
  {
    "doc-" + NatToString(w.millis) + "-" + NatToString(w.random)
  }

  /** The record stored for a valid document: title, content and source copied, the given id or a
      generated one, no url when none was given, the given date or now, the given type or
      "generic", and the embedding obtained. */
  function Record(doc: Document, w: World, embedding: Embedding): (r: StoredDocument)
    ensures r.title == doc.title && r.content == doc.content && r.source == doc.source
    ensures r.id != "" && (doc.id != "" ==> r.id == doc.id)
    ensures r.url.None? <==> doc.url == ""
    ensures r.url.Some? ==> r.url.value == doc.url
    ensures r.date != "" || w.isoNow == ""
    ensures doc.date != "" ==> r.date == doc.date
    ensures r.docType != "" && (doc.docType != "" ==> r.docType == doc.docType)
    ensures r.embedding == embedding
  {
    StoredDocument(if doc.id != "" then doc.id else GeneratedId(w),
                   doc.title, doc.content, doc.source,
                   if doc.url != "" then Some(doc.url) else None,
                   if doc.date != "" then doc.date else w.isoNow,
                   if doc.docType != "" then doc.docType else "generic",
                   embedding, w.isoNow, w.isoNow)
  }

  /** `indexDocument` */
  function IndexDocument(doc: Document, w: World): (r: Indexing)
    // a document missing a required field fails before any call, under its own id
    ensures !HasRequiredFields(doc) ==>
              r == Indexing(IndexResult(doc.id, false, Some(MissingFieldsError)), None, None)
    // a valid document has the first 8000 characters of its content embedded
    ensures HasRequiredFields(doc) ==> r.embeddingRequest == Some(Take(doc.content, EmbeddingInputLimit))
    // it is saved only once its embedding was obtained, as its record
    ensures r.saved.Some? <==> HasRequiredFields(doc) && w.embedding.Ok?
    ensures r.saved.Some? ==> r.saved.value == Record(doc, w, w.embedding.value)
    // success is reported only after the save, under the stored id
    ensures r.result.success <==> r.saved.Some? && w.save.Ok?
    ensures r.result.success ==> r.result.id == r.saved.value.id && r.result.error.None?
    // any failure is reported under the document's own id, with the error's message
    ensures !r.result.success ==> r.result.id == doc.id && r.result.error.Some?
    ensures HasRequiredFields(doc) && w.embedding.Err? ==> r.result.error == Some(w.embedding.message)
    ensures r.saved.Some? && w.save.Err? ==> r.result.error == Some(w.save.message)
  {
    if !HasRequiredFields(doc) then
      Indexing(IndexResult(doc.id, false, Some(MissingFieldsError)), None, None)
    else
      var request := Some(Take(doc.content, EmbeddingInputLimit));
      match w.embedding
      case Err(m) => Indexing(IndexResult(doc.id, false, Some(m)), request, None)
      case Ok(embedding) =>
        var record := Record(doc, w, embedding);
        match w.save
        case Err(m) => Indexing(IndexResult(doc.id, false, Some(m)), request, Some(record))
        case Ok(_) => Indexing(IndexResult(record.id, true, None), request, Some(record))
  }

  /** A document that carries an id is reported under that id whatever happens. */
  lemma GivenIdIsReported(doc: Document, w: World)
    requires doc.id != ""
    ensures IndexDocument(doc, w).result.id == doc.id
  {
    var r := IndexDocument(doc, w);
    if r.result.success {
      assert r.saved.value == Record(doc, w, w.embedding.value);
    }
  }

  /** `batchIndexDocuments`: `worlds[i]` answers the calls made for `documents[i]`. One result per
      document, in order, each the result of indexing that document alone: a failure does not stop
      the documents after it. */
  method BatchIndexDocuments(documents: seq<Document>, worlds: seq<World>) returns (results: seq<IndexResult>)
    requires |worlds| == |documents|
    ensures |results| == |documents|
    ensures forall i :: 0 <= i < |documents| ==> results[i] == IndexDocument(documents[i], worlds[i]).result
  {
    results := [];
    for i := 0 to |documents|
      invariant |results| == i
      invariant forall j :: 0 <= j < i ==> results[j] == IndexDocument(documents[j], worlds[j]).result
    {
      var result := IndexDocument(documents[i], worlds[i]).result;
      results := results + [result];
    }
  }
}
