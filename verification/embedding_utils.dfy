/** utils/embeddingUtils.js: the dot product behind cosine similarity, the fixed-width text chunker,
    the best-match search over the knowledge base and the load-once cache of the data file.
    Similarities are floating-point numbers computed outside the model; only their comparisons matter. */
module EmbeddingUtils {
  import opened Results
  import opened JsStrings
  import opened KnowledgeBase

  /** The dot product of `cosineSimilarity`, a left-to-right `reduce` over the first vector. */
  function Dot(a: Embedding, b: Embedding): real
    requires |a| == |b|
  {
    if a == [] then 0.0 else Dot(a[..|a| - 1], b[..|b| - 1]) + a[|a| - 1] * b[|b| - 1]
  }

  /** The numerator of cosine similarity does not depend on the order of its arguments. */
  lemma {:induction false} DotSymmetric(a: Embedding, b: Embedding)
    requires |a| == |b|
    ensures Dot(a, b) == Dot(b, a)
  {
    if a != [] {
      DotSymmetric(a[..|a| - 1], b[..|b| - 1]);
    }
  }

  /** The default width of `dividirResposta` in this file. */
  const DefaultChunkWidth: nat := 1000

  /** `dividirResposta`: consecutive slices of exactly `limite` characters, the last one possibly
      shorter; their concatenation is the text and there are ceil(|texto| / limite) of them. */
  method ChunkText(texto: string, limite: nat := DefaultChunkWidth) returns (partes: seq<string>)
    requires limite > 0
    ensures Concat(partes) == texto
    ensures forall i :: 0 <= i < |partes| ==> 0 < |partes[i]| <= limite
    ensures forall i :: 0 <= i < |partes| - 1 ==> |partes[i]| == limite
    ensures |texto| <= |partes| * limite < |texto| + limite
  {
    partes := [];
    var inicio := 0;
    while inicio < |texto|
      invariant inicio == |partes| * limite
      invariant inicio < |texto| + limite
      invariant inicio <= |texto| ==> Concat(partes) == texto[..inicio]
      invariant inicio <= |texto| ==> forall i :: 0 <= i < |partes| ==> |partes[i]| == limite
      invariant inicio > |texto| ==> Concat(partes) == texto
      invariant forall i :: 0 <= i < |partes| ==> 0 < |partes[i]| <= limite
      invariant forall i :: 0 <= i < |partes| - 1 ==> |partes[i]| == limite
    {
      var fim := if inicio + limite <= |texto| then inicio + limite else |texto|;
      assert texto[..inicio] + texto[inicio..fim] == texto[..fim];
      assert fim == |texto| ==> texto[..fim] == texto;
      partes := partes + [texto[inicio..fim]];
      assert (|partes| - 1) * limite + limite == |partes| * limite;
      inicio := inicio + limite;
    }
    assert inicio == |texto| ==> texto[..inicio] == texto;
  }

  /** An entry of the knowledge base extended with its `similarity` to the question. */
  datatype Match = Match(entry: Entry, similarity: real)

  /** `k` is the first entry reaching the highest similarity, and that similarity is above 0. */
  predicate IsFirstBest(sims: seq<real>, k: int) {
    && 0 <= k < |sims|
    && sims[k] > 0.0
    && (forall i :: 0 <= i < |sims| ==> sims[i] <= sims[k])
    && (forall i :: 0 <= i < k ==> sims[i] < sims[k])
  }

  /** The search loop of `findMostSimilarQuestion`; `sims[i]` is the cosine similarity of the question's
      embedding with `dados[i].embedding`. The best value starts at 0 and is replaced only by a strictly
      greater one, so the result is null when no similarity is above 0 (in particular for no data), and
      otherwise the first entry reaching the maximum. */
  method FindMostSimilarQuestion(dados: seq<Entry>, sims: seq<real>) returns (r: Option<Match>)
    requires |sims| == |dados|
    ensures r.None? <==> forall i :: 0 <= i < |sims| ==> sims[i] <= 0.0
    ensures r.Some? ==> exists k :: IsFirstBest(sims, k) && r.value == Match(dados[k], sims[k])
  {
    r := None;
    var maiorSimilaridade := 0.0;
    ghost var best := -1;
    for i := 0 to |dados|
      invariant r.None? ==> maiorSimilaridade == 0.0 && best == -1
      invariant r.None? ==> forall j :: 0 <= j < i ==> sims[j] <= 0.0
      invariant r.Some? ==> 0 <= best < i && r.value == Match(dados[best], sims[best])
      invariant r.Some? ==> maiorSimilaridade == sims[best] > 0.0
      invariant forall j :: 0 <= j < i ==> sims[j] <= maiorSimilaridade
      invariant r.Some? ==> forall j :: 0 <= j < best ==> sims[j] < maiorSimilaridade
    {
      var sim := sims[i];
      if sim > maiorSimilaridade {
        maiorSimilaridade := sim;
        r := Some(Match(dados[i], sim));
        best := i;
      }
    }
    if r.Some? {
      assert IsFirstBest(sims, best);
    }
  }

  /** What the search over the possible paths of the data file found: no readable file, or the text
      of the first one and what `JSON.parse` made of it. */
  datatype DataFile = NotFound | Found(raw: string, parsed: Outcome<seq<Entry>>)

  /** The module-level `cachedData` of `loadEmbeddings`. */
  class EmbeddingCache {
    var cachedData: Option<seq<Entry>>

    constructor ()
      ensures cachedData == None
    {
      cachedData := None;
    }

    /** `loadEmbeddings`: a cached list is returned without reading the file; otherwise a missing or
        empty file or a parse error gives [] and leaves the cache empty, and a parsed list is cached
        and returned. `readFile` says whether the file was consulted. */
    method LoadEmbeddings(file: DataFile) returns (data: seq<Entry>, readFile: bool)
      modifies this
      ensures old(cachedData).Some? ==> !readFile && data == old(cachedData).value && cachedData == old(cachedData)
      ensures old(cachedData).None? ==> readFile
      ensures old(cachedData).None? && file.Found? && file.raw != "" && file.parsed.Ok? ==>
                data == file.parsed.value && cachedData == Some(data)
      ensures old(cachedData).None? && !(file.Found? && file.raw != "" && file.parsed.Ok?) ==>
                data == [] && cachedData == None
    {
      if cachedData.Some? {
        return cachedData.value, false;
      }
      readFile := true;
      if file.NotFound? || file.raw == "" {
        return [], readFile;
      }
      match file.parsed
      case Ok(entries) =>
        cachedData := Some(entries);
        data := entries;
      case Err(_) =>
        data := [];
    }
  }
}
