/** scripts/updateAllEmbeddings.js: `updateAllEmbeddings` re-embeds the question of every entry of the
    data file and writes the list back, keeping an entry as it was when its embedding fails. The file
    system and the embedding service are outside the model: the data file as found and the outcome of
    each embedding request are inputs, and the list written (if any) is the output. */
module UpdateAllEmbeddings {
  import opened Results
  import opened KnowledgeBase

  /** The data file: absent, present but not readable as JSON, or a list of entries. */
  datatype DataFile = Missing | Unparseable(message: string) | Loaded(entries: seq<Entry>)

  /** `updateAllEmbeddings`: `embeddings[i]` is the outcome of embedding the i-th entry's question,
      and `requests` are the texts sent to the embedding service, in order. A missing or unparseable
      file writes nothing and asks for no embedding. Otherwise the list written has one entry per
      loaded entry, in order: the entry with its new embedding, or the entry unchanged when the
      embedding failed. */
  method UpdateAll(file: DataFile, embeddings: seq<Outcome<Embedding>>) returns (written: Option<seq<Entry>>, requests: seq<string>)
    requires file.Loaded? ==> |embeddings| == |file.entries|
    ensures !file.Loaded? ==> written == None && requests == []
    ensures file.Loaded? ==> written.Some? && |written.value| == |file.entries|
    ensures file.Loaded? ==> forall i :: 0 <= i < |file.entries| ==>
              && written.value[i].(embedding := file.entries[i].embedding) == file.entries[i]
              && (embeddings[i].Ok? ==> written.value[i].embedding == embeddings[i].value)
              && (embeddings[i].Err? ==> written.value[i] == file.entries[i])
    ensures file.Loaded? ==> |requests| == |file.entries|
    ensures file.Loaded? ==> forall i :: 0 <= i < |file.entries| ==> requests[i] == file.entries[i].pergunta
  {
    if !file.Loaded? {
      return None, [];
    }
    var data := file.entries;
    var updatedData: seq<Entry> := [];
    requests := [];
    for i := 0 to |data|
      invariant |updatedData| == |requests| == i
      invariant forall j :: 0 <= j < i ==> requests[j] == data[j].pergunta
      invariant forall j :: 0 <= j < i ==>
                  && updatedData[j].(embedding := data[j].embedding) == data[j]
                  && (embeddings[j].Ok? ==> updatedData[j].embedding == embeddings[j].value)
                  && (embeddings[j].Err? ==> updatedData[j] == data[j])
    {
      var entry := data[i];
      requests := requests + [entry.pergunta];
      match embeddings[i]
      case Ok(newEmbedding) =>
        updatedData := updatedData + [entry.(embedding := newEmbedding)];
      case Err(_) =>
        updatedData := updatedData + [entry];
    }
    written := Some(updatedData);
  }
}
