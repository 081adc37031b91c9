/** utils/generateEmbeddings.js: `addNewEntriesWithEmbeddings` embeds the question of each new entry,
    appends the entries whose embedding succeeded to the existing data and reports the counts. The
    embedding service and the file system are outside the model: the data file as found and the
    outcome of each embedding request are inputs. */
module GenerateEmbeddings {
  import opened Results
  import opened KnowledgeBase

  /** The `fonte` recorded for an entry that has none. */
  const DefaultFonte := "Fonte não especificada"

  /** A new entry as the caller supplies it; an absent `fonte` is "". */
  datatype NewEntry = NewEntry(pergunta: string, resposta: string, fonte: string)

  /** The data file as `loadExistingData` finds it: absent, unreadable or not JSON, or a list. */
  datatype ExistingFile = NoFile | Unreadable(message: string) | Parsed(entries: seq<Entry>)

  /** `loadExistingData`: the parsed list, or no entries when the file is missing or cannot be read
      or parsed. */
  function LoadExistingData(file: ExistingFile): (r: seq<Entry>)
    ensures file.Parsed? ==> r == file.entries
    ensures !file.Parsed? ==> r == []
  {
    if file.Parsed? then file.entries else []
  }

  /** The record stored for a new entry: its question and answer, the answer again as `texto`, the
      given source or the default one, and the embedding of the question. */
  function Record(e: NewEntry, embedding: Embedding): (r: Entry)
    ensures r.pergunta == e.pergunta && r.resposta == e.resposta && r.texto == e.resposta
    ensures r.embedding == embedding
    ensures r.fonte != ""
    ensures e.fonte != "" ==> r.fonte == e.fonte
  {
    Entry(e.pergunta, e.resposta, if e.fonte != "" then e.fonte else DefaultFonte, embedding, e.resposta)
  }

  /** `processedEntries` after the given entries: one record for each entry whose embedding was
      obtained, in order; an entry whose embedding failed is skipped. */
  function Processed(news: seq<NewEntry>, embeddings: seq<Outcome<Embedding>>): seq<Entry>
    requires |embeddings| == |news|
  {
    if news == [] then []
    else
      var n := |news| - 1;
      var before := Processed(news[..n], embeddings[..n]);
      match embeddings[n]
      case Ok(v) => before + [Record(news[n], v)]
      case Err(_) => before
  }

  /** The positions of the entries whose embedding was obtained, in increasing order. */
  function OkPositions(embeddings: seq<Outcome<Embedding>>): seq<nat> {
    if embeddings == [] then []
    else
      var n := |embeddings| - 1;
      OkPositions(embeddings[..n]) + (if embeddings[n].Ok? then [n] else [])
  }

  /** The counts returned to the caller. */
  datatype Counts = Counts(totalExistentes: nat, totalAdicionadas: nat, totalCombinadas: nat)

  /** `addNewEntriesWithEmbeddings`: `embeddings[i]` is the outcome of embedding `newEntries[i]`'s
      question, and `requests` are the texts sent to the embedding service. The saved data is the
      existing list followed by the processed entries. */
  method AddNewEntriesWithEmbeddings(file: ExistingFile, newEntries: seq<NewEntry>, embeddings: seq<Outcome<Embedding>>)
    returns (saved: seq<Entry>, counts: Counts, requests: seq<string>)
    requires |embeddings| == |newEntries|
    ensures saved == LoadExistingData(file) + Processed(newEntries, embeddings)
    ensures counts.totalExistentes == |LoadExistingData(file)|
    ensures counts.totalCombinadas == counts.totalExistentes + counts.totalAdicionadas == |saved|
    ensures counts.totalAdicionadas <= |newEntries|
    ensures |requests| == |newEntries| && forall i :: 0 <= i < |newEntries| ==> requests[i] == newEntries[i].pergunta
  {
    var existingData := LoadExistingData(file);
    var processedEntries: seq<Entry> := [];
    requests := [];
    for i := 0 to |newEntries|
      invariant processedEntries == Processed(newEntries[..i], embeddings[..i])
      invariant |processedEntries| <= i
      invariant |requests| == i && forall j :: 0 <= j < i ==> requests[j] == newEntries[j].pergunta
    {
      var entry := newEntries[i];
      assert newEntries[..i + 1][..i] == newEntries[..i];
      assert embeddings[..i + 1][..i] == embeddings[..i];
      requests := requests + [entry.pergunta];
      match embeddings[i]
      case Ok(embedding) =>
        processedEntries := processedEntries + [Record(entry, embedding)];
      case Err(_) =>
    }
    assert newEntries[..|newEntries|] == newEntries;
    assert embeddings[..|embeddings|] == embeddings;
    saved := existingData + processedEntries;
    counts := Counts(|existingData|, |processedEntries|, |saved|);
  }

  /** The successful positions: each in range and successful, increasing, and none missing. */
  lemma {:induction false} OkPositionsFacts(embeddings: seq<Outcome<Embedding>>)
    ensures forall k :: 0 <= k < |OkPositions(embeddings)| ==>
              OkPositions(embeddings)[k] < |embeddings| && embeddings[OkPositions(embeddings)[k]].Ok?
    ensures forall k, l :: 0 <= k < l < |OkPositions(embeddings)| ==> OkPositions(embeddings)[k] < OkPositions(embeddings)[l]
    ensures forall j :: 0 <= j < |embeddings| && embeddings[j].Ok? ==> j in OkPositions(embeddings)
  {
    if embeddings != [] {
      var n := |embeddings| - 1;
      var pos, pos0 := OkPositions(embeddings), OkPositions(embeddings[..n]);
      OkPositionsFacts(embeddings[..n]);
      assert pos == pos0 + (if embeddings[n].Ok? then [n] else []);
      forall k | 0 <= k < |pos0| ensures pos[k] == pos0[k] < n && embeddings[pos0[k]].Ok? {
        assert pos0[k] < n && embeddings[..n][pos0[k]].Ok?;
      }
      forall j | 0 <= j < |embeddings| && embeddings[j].Ok? ensures j in pos {
        if j < n {
          assert embeddings[..n][j] == embeddings[j];
          assert j in pos0;
        }
      }
    }
  }

  /** The processed entries are exactly the records of the entries whose embedding was obtained, in
      their order: the k-th record comes from the k-th successful position (see `OkPositionsFacts`).
      A failure only drops its own entry, and the number added is the number of successes. */
  lemma {:induction false} ProcessedAreTheSuccesses(news: seq<NewEntry>, embeddings: seq<Outcome<Embedding>>)
    requires |embeddings| == |news|
    ensures var ps, pos := Processed(news, embeddings), OkPositions(embeddings);
      && |ps| == |pos|
      && (forall k :: 0 <= k < |pos| ==> pos[k] < |news| && embeddings[pos[k]].Ok?
                                          && ps[k] == Record(news[pos[k]], embeddings[pos[k]].value))
  {
    OkPositionsFacts(embeddings);
    if news != [] {
      var n := |news| - 1;
      ProcessedAreTheSuccesses(news[..n], embeddings[..n]);
      var ps, ps0 := Processed(news, embeddings), Processed(news[..n], embeddings[..n]);
      var pos, pos0 := OkPositions(embeddings), OkPositions(embeddings[..n]);
      forall k | 0 <= k < |pos0|
        ensures pos[k] == pos0[k] && ps[k] == Record(news[pos[k]], embeddings[pos[k]].value)
      {
        assert embeddings[..n][pos0[k]] == embeddings[pos0[k]];
        assert news[..n][pos0[k]] == news[pos0[k]];
      }
    }
  }
}
