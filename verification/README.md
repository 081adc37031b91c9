# True Live — a Dafny model of the chatbot's core

True Live is a WhatsApp assistant about Israel, Judaism and Middle-East geopolitics. A user's
question is classified as in or out of the domain. For an in-domain question, documents are
retrieved and a language model is prompted with them; the answer gets an optional list of sources.
Every day a news item is scraped from five news sites (or written by a language model) and sent to
the users who did not opt out. Offline scripts index the list of trusted sources and keep the
embeddings of the question/answer base up to date.

This project models that core in Dafny, one module per source file:

| module | source file | what it holds |
|---|---|---|
| `ResponseGenerator` | utils/responseGenerator.js | language detection, the conversation transcript and last subject, the document context and sources, the prompt, the footer, the whole `gerar` flow |
| `DomainClassifier` | utils/domainClassifier.js | the prompt choice and the reading of the classifier's reply (fail-open) |
| `SemanticSearch` | utils/semanticSearch.js | the similarity threshold gate |
| `EmbeddingUtils` | utils/embeddingUtils.js | the dot product, the fixed-width chunker, the embedding cache, the best-match scan |
| `Similarity` | similarity.js | the ranking of scored entries (stable descending sort) |
| `Splitter` | utils/splitter.js | the paragraph packer that splits long answers |
| `GenerateEmbeddings` | utils/generateEmbeddings.js | appending new entries with their embeddings |
| `UpdateAllEmbeddings` | scripts/updateAllEmbeddings.js | re-embedding every entry of the data file |
| `DocumentIndexer` | utils/documentIndexer.js | validating, identifying and storing one document; the batch |
| `IndexDocuments` | scripts/indexDocuments.js | extracting `fontes_especificas = [...]`, parsing its items into documents, the tally |
| `NewsService` | services/newsService.js | headlines, selection, the news text and its title, the AI fallback, the sending |
| `FirebaseService` | services/firebaseService.js | the user-settings store (a class over a map) with merge writes |
| `ChatController` | controllers/chatController.js | the `/config noticias` command |

`Results` holds `Option` and `Outcome` (success with a value, or an error message).
`JsStrings` models the JavaScript string built-ins the core uses: `trim`, `split`, `join`,
`includes`, `startsWith`, `toLowerCase` and the regex classes `\s`, `\d` and `\w`.
`KnowledgeBase` gives the shape of an entry of the question/answer data file.

Everything outside the process is an input of type `Outcome<…>`: the language-model replies, the
embeddings, the Firestore reads and writes, the scraped pages and the Twilio sends. A failed call is
`Err`, and the model follows the source's `catch` branch for it. Where the source calls a service only
on some branches, the model also returns the request it would make, so "never called" is stated
too. An absent JavaScript field (`undefined`) is modelled as `""` for text and `0.0` for numbers.
Both are falsy, so every truthiness test takes the same branch. The exception is a method called on
the absent value, which throws where `""` does not; the cases this affects are listed under
"## Left out".

## Model

| member | source | states |
|---|---|---|
| SemanticSearch.Gate | utils/semanticSearch.js:2-20 | the results pass unchanged exactly when there is a first result whose similarity reaches the 0.3 threshold; otherwise nothing passes |
| SemanticSearch.GateBoundary | utils/semanticSearch.js:7 | a best result exactly at the threshold passes (`>=`), one below it is dropped |
| Similarity.Indexed | similarity.js:21-24 | each similarity is paired with its own index, in order |
| Similarity.Insert | similarity.js:25 | inserting keeps every element (multiset grows by exactly the new one) |
| Similarity.InsertRanked | similarity.js:25 | inserting into a ranked list with distinct indices keeps it ranked |
| Similarity.SortDescendingCorrect | similarity.js:25 | the sort is a permutation and ranked: similarity descending, ties by original index |
| Similarity.Rank | similarity.js:19-26 | the result has one entry per embedding, is a permutation of the indexed scores and is ranked |
| Similarity.RankProperties | similarity.js:19-26 | every result carries a valid index and that embedding's own score; every index appears exactly once |
| Similarity.RankedUnique | similarity.js:25 | two ranked permutations of the same entries are equal, so the order is determined |
| Similarity.RankIsTheStableSort | similarity.js:25 | any ranked permutation of the indexed scores is the result (the stable sort's output) |
| EmbeddingUtils.DotSymmetric | utils/embeddingUtils.js:9-14 | the dot product of the cosine similarity is symmetric in its two vectors |
| EmbeddingUtils.ChunkText | utils/embeddingUtils.js:24-32 | with the default width 1000 when none is given, the pieces concatenate back to the text, none is empty, all but the last have exactly the limit's width, and their count is the ceiling of length/limit |
| EmbeddingUtils.FindMostSimilarQuestion | utils/embeddingUtils.js:78-94 | nothing is found exactly when no similarity is above 0; otherwise the result is the first entry with the strictly greatest similarity, with that similarity |
| EmbeddingUtils.EmbeddingCache.constructor | utils/embeddingUtils.js:7 | the cache starts empty |
| EmbeddingUtils.EmbeddingCache.LoadEmbeddings | utils/embeddingUtils.js:34-76 | a filled cache is returned without reading; otherwise a found, non-empty, parseable file fills the cache and is returned, and any other case returns `[]` and leaves the cache empty |
| Splitter.SplitMessage | utils/splitter.js:1-21 | with the default limit 1500 when none is given, the loop computes the packing fold over the paragraphs followed by the final push |
| Splitter.PackJoin | utils/splitter.js:7-16 | the closed parts plus the open one, joined by newlines, give back the text with one leading newline |
| Splitter.PackBound | utils/splitter.js:9-16 | each closed part fits the limit or is a single paragraph; so does the open part |
| Splitter.PackFirst | utils/splitter.js:10-12 | a first paragraph at least as long as the limit closes an empty part first |
| Splitter.LongTextParts | utils/splitter.js:7-20 | a text longer than the limit gives at least one part, each the trim of a packed piece |
| Splitter.PiecesWithinLimit | utils/splitter.js:9-18 | every packed piece fits the limit or is a single paragraph |
| Splitter.PiecesJoin | utils/splitter.js:9-18 | the packed pieces rejoin to the text (up to one leading newline) |
| Splitter.FirstParagraphTooLong | utils/splitter.js:10-12 | when the first paragraph is at least the limit long, the first part returned is `""` |
| DomainClassifier.PromptFor | utils/domainClassifier.js:18-36 | the contextual prompt is chosen exactly when the query contains "CONVERSA ANTERIOR:" |
| DomainClassifier.ClassifyAccepts | utils/domainClassifier.js:54-62 | a failed call counts as in domain; a reply counts exactly when it is "true" in any letter case with only whitespace around it |
| DomainClassifier.AcceptedIsPadded | utils/domainClassifier.js:54-55 | a reply whose trimmed lower-case form is "true" is "true" in some letter case with only whitespace around it |
| DomainClassifier.PaddedIsAccepted | utils/domainClassifier.js:54-55 | conversely, "true" in any letter case with only whitespace around it is accepted |
| DomainClassifier.ClassifyRejects | utils/domainClassifier.js:55 | "sim", "" and "false" are out of domain |
| DomainClassifier.ClassifyRejectsFullStop | utils/domainClassifier.js:55 | "true." is out of domain (strict equality after trim) |
| DomainClassifier.ClassifyIgnoresPaddingAndCase | utils/domainClassifier.js:54-55 | " True\n" is in domain |
| FirebaseService.UserKey | services/firebaseService.js:18 | the document key keeps only the digits of the phone number |
| FirebaseService.FormattingSharesKey | services/firebaseService.js:18 | inserting a non-digit anywhere in a phone number does not change its key |
| FirebaseService.Merge | services/firebaseService.js:56 | a merge write takes each field from the patch when present and keeps the stored one otherwise |
| FirebaseService.MergeIdempotent | services/firebaseService.js:56 | writing the same patch twice equals writing it once |
| FirebaseService.MergeCompose | services/firebaseService.js:56 | two merge writes equal one write of the merged patches |
| FirebaseService.MergeFull | services/firebaseService.js:56 | a patch with every field replaces the document |
| FirebaseService.SettingsStore.constructor | services/firebaseService.js:9 | the store holds the given documents |
| FirebaseService.SettingsStore.GetUserSettings | services/firebaseService.js:16-45 | a stored document is returned and nothing is written; a missing one gives the defaults, which are stored unless the write fails; a failed read, or a phone number without digits (an empty document key), gives the defaults and writes nothing |
| FirebaseService.SettingsStore.UpdateUserSettings | services/firebaseService.js:53-62 | reports success exactly when the write succeeds and the phone number has a digit; on success only the user's document changes, to the merge of the patch; on failure nothing changes |
| ChatController.Confirmation | controllers/chatController.js:13 | the confirmation ends in "ativado." exactly when news was turned on and in "desativado." exactly when it was turned off, after the fixed prefix |
| ChatController.NewsPatch | controllers/chatController.js:7-8 | the write sets `receiveNews` and no other field |
| ChatController.ProcessConfigCommand | controllers/chatController.js:4-30 | a news command merges `receiveNews` (on/sim/yes) into the user's document and replies with the confirmation even if the write failed (nothing is written then, nor for a phone number without digits); any other parameters reply with the help text and write nothing |
| ChatController.NewsCommandTouchesOnlyReceiveNews | controllers/chatController.js:8 | after the news command only `receiveNews` differs in the user's document |
| GenerateEmbeddings.LoadExistingData | utils/generateEmbeddings.js:26-38 | a parsed file gives its entries; a missing or unreadable file gives `[]` |
| GenerateEmbeddings.Record | utils/generateEmbeddings.js:66-72 | the stored entry keeps question and answer, copies the answer to `texto`, carries the embedding, and has a non-empty source, the given one when present |
| GenerateEmbeddings.AddNewEntriesWithEmbeddings | utils/generateEmbeddings.js:54-91 | the saved data is the existing entries followed by the processed ones; the counts add up; one embedding request per new entry, for its question |
| GenerateEmbeddings.OkPositionsFacts | utils/generateEmbeddings.js:61-78 | the successful positions are increasing, in range, successful, and include every success |
| GenerateEmbeddings.ProcessedAreTheSuccesses | utils/generateEmbeddings.js:59-78 | the k-th processed entry is the record of the k-th entry whose embedding succeeded; failed entries are skipped |
| UpdateAllEmbeddings.UpdateAll | scripts/updateAllEmbeddings.js:9-54 | a missing or unparseable file writes nothing and requests nothing; otherwise each entry is kept with its embedding replaced on success and unchanged on failure, with one request per entry for its question |
| DocumentIndexer.GeneratedId | utils/documentIndexer.js:28 | a generated id starts with "doc-" |
| DocumentIndexer.Record | utils/documentIndexer.js:34-45 | the stored document keeps title, content and source, has a non-empty id (the given one when present), `url` null exactly when absent, the given date and type when present (else the clock's date and "generic"), and the embedding |
| DocumentIndexer.IndexDocument | utils/documentIndexer.js:20-56 | a document missing a required field fails with the fixed message and requests nothing; otherwise the first 8000 characters are embedded, a record is saved exactly when embedding succeeds, success exactly when the save also succeeds, and a failure reports the document's own id and the error |
| DocumentIndexer.GivenIdIsReported | utils/documentIndexer.js:28-54 | a document with an id is reported under that id, on success and on failure |
| DocumentIndexer.BatchIndexDocuments | utils/documentIndexer.js:58-67 | one result per document, in order, each the result of indexing that document |
| IndexDocuments.ListBodyIsTheLeftmostMatch | scripts/indexDocuments.js:21-26 | the extracted body is the leftmost match of `fontes_especificas\s*=\s*\[([\s\S]*?)\]` (lazily up to the first `]`); no body exactly when nothing matches |
| IndexDocuments.BodyAtComplete | scripts/indexDocuments.js:21 | a match at a position is found there |
| IndexDocuments.BodyAtSound | scripts/indexDocuments.js:21 | what is found at a position is a match there |
| IndexDocuments.SearchFromIsLeftmost | scripts/indexDocuments.js:21 | the search from a position returns the first match at or after it |
| IndexDocuments.KeepQuoted | scripts/indexDocuments.js:29 | keeps exactly the lines starting with a quote |
| IndexDocuments.KeepQuotedAppend | scripts/indexDocuments.js:29 | the filter distributes over concatenation, so order is kept |
| IndexDocuments.QuotedTrimmedPieces | scripts/indexDocuments.js:27-29 | the items are the trimmed pieces (split on ",\n") that start with a quote, each trimmed |
| IndexDocuments.StripQuotes | scripts/indexDocuments.js:34 | one leading and one trailing quote character are removed when present, and nothing else |
| IndexDocuments.Classify | scripts/indexDocuments.js:37-39 | "website" exactly when the item contains "http", else "livro" exactly when it has four digits in a row, else "outros" |
| IndexDocuments.TitleAndSourceBySeparator | scripts/indexDocuments.js:42-50 | without " – " title and source are the item; with it the title is the trimmed text before the first separator and the source the trimmed second piece, or the title when that piece is empty |
| IndexDocuments.MakeDocument | scripts/indexDocuments.js:32-60 | the document has id "fonte-<index>", the classified type, the title and source of the item without quotes, and the fixed content around it |
| IndexDocuments.ParseFontes | scripts/indexDocuments.js:21-61 | no list gives the format error; otherwise one document per item, in order |
| IndexDocuments.DocumentIdsUnique | scripts/indexDocuments.js:53 | the documents' ids are pairwise distinct |
| IndexDocuments.TallyCountsAll | scripts/indexDocuments.js:69-74 | successes plus failures count every result, and there are no failures exactly when every result succeeded |
| NewsService.NormalizeLink | services/newsService.js:42-44 | an empty or absolute link is kept; a relative one is put under the page's origin |
| NewsService.NormalizeLinkJoinsOnce | services/newsService.js:44 | a relative link is joined to the origin with exactly one slash |
| NewsService.NormalizeLinkIdempotent | services/newsService.js:42-44 | normalizing twice equals normalizing once (for an http origin) |
| NewsService.HeadlineFrom | services/newsService.js:33-56 | a site gives a headline exactly when its page loads and the trimmed text is not empty; the title is that trimmed text, with the site's name and the normalized link |
| NewsService.FetchTopHeadlines | services/newsService.js:23-63 | the loop collects the sites' headlines in order |
| NewsService.ContributorsFacts | services/newsService.js:26-60 | the contributing sites are listed in increasing order, and every site that yields a headline is listed |
| NewsService.CollectedAreTheContributions | services/newsService.js:26-60 | the k-th headline is the headline of the k-th contributing site; every title is non-empty and trimmed |
| NewsService.FirstDigitRun | services/newsService.js:111 | no run exactly when there is no digit; otherwise the maximal digit run starting at the first digit |
| NewsService.DigitRunUnique | services/newsService.js:111 | the first maximal digit run is unique |
| NewsService.FirstDigitRunTrim | services/newsService.js:110-111 | trimming the reply does not change its first digit run |
| NewsService.DecimalValueOfNatToString | services/newsService.js:111 | `parseInt` of a number's decimal text gives that number |
| NewsService.UniqueHeadlines | services/newsService.js:81 | keeps exactly the headlines whose title is not among the recent titles |
| NewsService.UniqueHeadlinesAppend | services/newsService.js:81 | the filter keeps the headlines' order: filtering a concatenation concatenates the filtered parts |
| NewsService.Selection | services/newsService.js:110-120 | the pick is one of the unique headlines, the first one when the call fails or the reply has no digit |
| NewsService.ReplyNumberSelects | services/newsService.js:110-117 | a reply carrying the number k (no digit before it) picks the k-th unique headline when 1 ≤ k ≤ count, the first otherwise |
| NewsService.SelectBestHeadline | services/newsService.js:66-122 | none for no headlines; the only one for one; an error when the history read fails; the first when all were sent recently; otherwise the model's pick among unsent ones, whose title is not recent |
| NewsService.NewsSummary | services/newsService.js:150-175 | the trimmed reply, or the fixed "not available" sentence when the call fails |
| NewsService.NewsBody | services/newsService.js:262-276 | the article's text when there is a link and it was read, the summary otherwise |
| NewsService.LinkShown | services/newsService.js:278 | the headline's link, or a non-empty fixed text when it has none |
| NewsService.DailyNewsText | services/newsService.js:260-279 | the text starts with "📰 title", a blank line, the body and a blank line, and ends with the link line and the source |
| NewsService.TitleStart | services/newsService.js:207 | where the captured title can start after "📰" at a line start: inside the run of spaces, at the last place a title character can follow |
| NewsService.TitleAtSound | services/newsService.js:207 | what is read at a position is a match of `^📰\s*(.+?)$` there, with the longest `\s*` |
| NewsService.TitleAtComplete | services/newsService.js:207 | a match at a position is read there |
| NewsService.TitleSearchIsLeftmost | services/newsService.js:207 | the search returns the capture of the first line that matches; none exactly when no line matches |
| NewsService.AITitleIsTheFirstTitleLine | services/newsService.js:207-208 | the title is the trimmed capture of the first matching line, or "Notícia do dia" exactly when no line matches |
| NewsService.DailyNewsTitleReadsBack | services/newsService.js:207-208 | the title regex reads back a headline's trimmed single-line title from its formatted news |
| NewsService.GenerateAINews | services/newsService.js:178-218 | no text exactly when the call fails; otherwise the trimmed reply is returned and stored with its regex title, no link and the picked site's name |
| NewsService.GenerateDailyNews | services/newsService.js:244-290 | no headlines, or a failed history read with two or more, falls back to the AI news; otherwise the headline `SelectBestHeadline` picks is formatted and stored with its title, link and source |
| NewsService.WhatsappAddress | services/newsService.js:334 | the address starts with "whatsapp:" and an address that already does is kept |
| NewsService.WhatsappAddressKeepsKey | services/newsService.js:320-334 | the prefix does not change the user's key, and adding it twice equals adding it once |
| NewsService.Recipient | services/newsService.js:320-334 | a user is skipped exactly when the phone has no digit, the settings read fails, or the stored `receiveNews` is false; otherwise the news goes to its WhatsApp address |
| NewsService.NewsCommandDecidesDelivery | services/newsService.js:328 | after "/config noticias off" the user is skipped; after "on" the user is sent the news unless the read fails |
| NewsService.SendNewsToAllUsers | services/newsService.js:292-362 | no news, a failed news read or a failed users read sends nothing and returns 0; otherwise the messages sent are the recipients' in order and the count is the successful sends (0 if the counter update fails) |
| NewsService.MessagesBound | services/newsService.js:315-349 | at most one message per user, the successes at most the messages, each message carrying the news to a WhatsApp address |
| NewsService.MessagesGoToRecipients | services/newsService.js:316-349 | every message goes to a user the settings allow |
| NewsService.RecipientsGetTheNews | services/newsService.js:316-349 | every user the settings allow is sent the news |
| ResponseGenerator.QuestionMarkAheadIsTheSearch | utils/responseGenerator.js:17 | the scan finds a "?" at or after a bound on the same line exactly when one exists |
| ResponseGenerator.SpanishQuestionFromIsTheSearch | utils/responseGenerator.js:17 | the scan finds `¿.+\?` exactly when it matches somewhere |
| ResponseGenerator.EndsWithQuestionIsTheMatch | utils/responseGenerator.js:18 | the end test holds exactly when `\w+\?\s*$` matches |
| ResponseGenerator.DetectLanguage | utils/responseGenerator.js:15-21 | Spanish exactly when `¿.+\?` matches or "ñ" occurs; English exactly when not Spanish, the text ends in a question and a word is an English question word; Portuguese otherwise |
| ResponseGenerator.TranscriptAppend | utils/responseGenerator.js:45-53 | the transcript of two histories is the concatenation of their transcripts |
| ResponseGenerator.SubjectIsTheGreedyGroup | utils/responseGenerator.js:57 | the subject is the longest prefix of word and space characters followed by " foi", " é" or " era"; none exactly when no such prefix exists |
| ResponseGenerator.LastSubjectIsTheLatest | utils/responseGenerator.js:55-61 | the last subject is the subject of the latest "quem" turn that has one; none exactly when no turn has one |
| ResponseGenerator.BuildConversation | utils/responseGenerator.js:40-64 | the loop builds the header plus the transcript of the written turns, and the latest subject |
| ResponseGenerator.Fixed2Distinguishes | utils/responseGenerator.js:122 | two scores print alike with two decimals exactly when they round to the same hundredth |
| ResponseGenerator.DocsContextAppend | utils/responseGenerator.js:115-126 | the documents' context of two lists is the concatenation of their contexts |
| ResponseGenerator.ContextShowsEachRelevantDoc | utils/responseGenerator.js:115-126 | each relevant document's block appears in the context at its place; an irrelevant one adds nothing |
| ResponseGenerator.UsedSourcesAreTheRelevantSources | utils/responseGenerator.js:116-124 | the used sources have no duplicates and are exactly the sources of the relevant documents |
| ResponseGenerator.CollectSources | utils/responseGenerator.js:111-126 | the loop builds the header plus the documents' context, and the used sources |
| ResponseGenerator.DocRefs | utils/responseGenerator.js:183-186 | one reference per document: its id is `id`, or `_id` when absent; its source is `source`, or `fonte` when absent |
| ResponseGenerator.SearchQuery | utils/responseGenerator.js:86-91 | the query is enriched exactly when there is a last subject and the query says "sua", "dele" or "dela", by appending a space and that subject |
| ResponseGenerator.SystemPrompt | utils/responseGenerator.js:142-158 | the prompt starts with the persona, the language instruction and the conversation, and ends with the documents' context |
| ResponseGenerator.SourceLinesIsJoin | utils/responseGenerator.js:176-178 | the footer's lines are the sources joined by "\n- " after a first "\n- " |
| ResponseGenerator.AppendFooter | utils/responseGenerator.js:172-179 | the answer gets the sources footer exactly when sources are shown and there is one |
| ResponseGenerator.ClassifierSeesTheConversation | utils/responseGenerator.js:66-73 | with a history the classifier gets the contextual prompt; without one it sees the bare query |
| ResponseGenerator.AnswerFromDocuments | utils/responseGenerator.js:111-189 | the prompt holds the language instruction, the conversation and the documents' context; a failed call gives the error answer, else the trimmed reply plus footer, the document references and the used sources joined by ", " |
| ResponseGenerator.Gerar | utils/responseGenerator.js:31-198 | out of domain, or no documents, gives the fallback's answer and marks it; a failed retrieval gives the error answer; otherwise retrieval runs only when no documents were passed, always asking for 4 documents, and the answer is built from the documents |

## Left out

- Floating point: similarities, cosine similarity and `toFixed(2)` are modelled on exact reals.
  `Math.sqrt` and the division of the cosine are not modelled, because only the sign and the order of
  scores matter to the core. `Cents` rounds half up, where `toFixed` works on the binary double.
- EmbeddingUtils.DotSymmetric: states symmetry of the dot product only; the norms and the division
  of `cosineSimilarity` are real-number arithmetic outside this model.
- The similarity scores themselves are inputs to `Similarity.Rank`, `SemanticSearch.Gate` and
  `EmbeddingUtils.FindMostSimilarQuestion`; the embedding calls that produce them are not modelled.
- String lengths count Unicode scalar values; JavaScript's `.length` counts UTF-16 units, which
  differs for characters outside the Basic Multilingual Plane (emoji). `toLowerCase` is modelled
  for ASCII letters only.
- Network, clock, randomness, file system, logging and `async` scheduling are not modelled. Their
  results are inputs: the date strings, `Date.now()`, the random suffix of generated ids and the
  random source of the AI news. The 100 ms pause between sends is dropped.
- The scraping itself (`axios` and the `cheerio` selectors) is not modelled; a page is its
  headline text and link, or an error. `new URL(...).origin` is given per site.
- The internals of `fetchArticleContent` are not modelled (services/newsService.js:125-147): the
  article text is an input, or an error.
- `saveNews` (services/newsService.js:220-242): the stored record keeps content, title, link and
  source. The timestamp, the `delivered` counter and the reaction counters are not modelled, and
  neither is a failure of the save (it is caught inside `saveNews` and does not change the result).
- services/firebaseService.js as shipped does not export `saveDocument`, which utils/documentIndexer.js:48
  calls; the `Err` outcome of the save covers the exception that call raises.
- services/firebaseService.js as shipped does not export `db` or `admin`, but newsService reads
  `firebase.db` and `firebase.admin`. The model treats those reads as answered: each is an input
  `Outcome`, and `Err` covers the exception they would raise.
- utils/fallback.js is not part of this model. It catches its own errors, so the fallback's answer
  is an input string.
- utils/semanticSearch.js is a fragment; only the threshold gate it contains is modelled.
- controllers/chatController.js is a fragment. `params` is taken to be a string (its type is not
  visible), and the message send (`enviarMensagem`) is the method's returned reply.
- `JSON.parse` and `JSON.stringify` are not modelled: the parsed data file is an input
  (`Outcome`), and a file whose top level is not an array is not distinguished.
- `gerar` with a `documentos` or retrieval result that is not an array is not modelled; the
  retrieval result is a list or an error.
- ResponseGenerator.AppendFooter: takes the header text as a parameter; `Gerar` passes the one
  chosen by language, Spanish or Portuguese.
- ResponseGenerator.Gerar: the language-model call is recorded by its prompt parts
  (`PromptParts`) rather than the full message list, whose fixed rules text is in `SystemPrompt`.
- IndexDocuments.Items has no contract of its own; `QuotedTrimmedPieces` states what it yields.
- The indexing script's final report only prints, so only the tally is modelled.
- `updateAllEmbeddings` with a missing file returns early. A parse failure is caught and writes
  nothing; both cases are `None`.
- The string `split(' – ')` in the indexing script takes the second piece, between the first and
  second separator, not the rest of the text; the model follows this code.
- GenerateEmbeddings.AddNewEntriesWithEmbeddings: a new entry without `pergunta` makes
  `substring` throw (utils/generateEmbeddings.js:63), so it is skipped with no embedding requested.
  The model has no absent question: an empty `pergunta` is requested and stored like any other.
- UpdateAllEmbeddings.UpdateAll: an entry without `pergunta` throws at scripts/updateAllEmbeddings.js:30
  and is kept unchanged with no embedding requested. The model has no absent question: an empty
  `pergunta` is requested and re-embedded like any other.
