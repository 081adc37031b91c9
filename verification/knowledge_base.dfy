/** The shape of one entry of the knowledge-base data file `data/fontes_categorizado.json`,
    which utils/embeddingUtils.js reads and utils/generateEmbeddings.js and
    scripts/updateAllEmbeddings.js rewrite. */
module KnowledgeBase {

  /** An embedding vector; its numbers come from the embedding service. */
  type Embedding = seq<real>

  /** A question (`pergunta`), its answer (`resposta`), the source label (`fonte`), the embedding of
      the question and a copy of the answer kept for compatibility (`texto`). */
  datatype Entry = Entry(pergunta: string, resposta: string, fonte: string, embedding: Embedding, texto: string)
}
