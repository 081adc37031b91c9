/** utils/responseGenerator.js: one turn of the assistant. The question's language is guessed, the
    conversation so far is written out as a transcript, the domain classifier decides between the
    general-knowledge fallback and an answer from documents, the documents (given, or retrieved with
    a query that may name the subject of the conversation) are turned into a context and a list of
    sources, and the model's answer gets a sources footer when the user asked for one. The
    classifier's reply, the retrieval, the fallback's text and the model's answer are inputs. */
module ResponseGenerator {
  import opened Results
  import opened JsStrings
  import opened FirebaseService
  import opened DomainClassifier

  // ---------------------------------------------------------------------------------------------
  // Language

  datatype Language = Es | En | Pt

  /** `/¿.+\?/` matches from `i` to `j`: an inverted question mark, at least one character, and a
      question mark, on one line. */
  ghost predicate SpanishQuestionAt(s: string, i: nat, j: nat) {
    i + 2 <= j < |s| && s[i] == '¿' && s[j] == '?' && forall k :: i < k < j ==> !IsLineTerminator(s[k])
  }

  /** Scanning the line from `k`: a '?' at or after `least` comes before the end of the line. */
  function QuestionMarkAhead(s: string, k: nat, least: nat): bool
    requires k <= |s|
    decreases |s| - k
  {
    if k == |s| || IsLineTerminator(s[k]) then false
    else if s[k] == '?' && least <= k then true
    else QuestionMarkAhead(s, k + 1, least)
  }

  /** Some '¿' at or after `i` is closed on its line. */
  function SpanishQuestionFrom(s: string, i: nat): bool
    requires i <= |s|
    decreases |s| - i
  {
    if i == |s| then false
    else (s[i] == '¿' && QuestionMarkAhead(s, i + 1, i + 2)) || SpanishQuestionFrom(s, i + 1)
  }

  lemma {:induction false} QuestionMarkAheadIsTheSearch(s: string, k: nat, least: nat)
    requires k <= |s|
    ensures QuestionMarkAhead(s, k, least) <==>
              exists j: nat :: k <= j < |s| && least <= j && s[j] == '?' && forall m :: k <= m < j ==> !IsLineTerminator(s[m])
    decreases |s| - k
  {
    if k < |s| && !IsLineTerminator(s[k]) && !(s[k] == '?' && least <= k) {
      QuestionMarkAheadIsTheSearch(s, k + 1, least);
      if QuestionMarkAhead(s, k, least) {
        var j: nat :| k + 1 <= j < |s| && least <= j && s[j] == '?' && forall m :: k + 1 <= m < j ==> !IsLineTerminator(s[m]);
        assert forall m :: k <= m < j ==> !IsLineTerminator(s[m]);
      }
    }
  }

  lemma {:induction false} SpanishQuestionFromIsTheSearch(s: string, i: nat)
    requires i <= |s|
    ensures SpanishQuestionFrom(s, i) <==> exists p: nat, j: nat :: i <= p && SpanishQuestionAt(s, p, j)
    decreases |s| - i
  {
    if i < |s| {
      SpanishQuestionFromIsTheSearch(s, i + 1);
      QuestionMarkAheadIsTheSearch(s, i + 1, i + 2);
      if s[i] == '¿' && QuestionMarkAhead(s, i + 1, i + 2) {
        var j: nat :| i + 1 <= j < |s| && i + 2 <= j && s[j] == '?' && forall m :: i + 1 <= m < j ==> !IsLineTerminator(s[m]);
        assert SpanishQuestionAt(s, i, j);
      }
      if exists p: nat, j: nat :: i <= p && SpanishQuestionAt(s, p, j) {
        var p: nat, j: nat :| i <= p && SpanishQuestionAt(s, p, j);
        if p == i {
          assert forall m :: i + 1 <= m < j ==> !IsLineTerminator(s[m]);
        } else {
          assert i + 1 <= p && SpanishQuestionAt(s, p, j);
        }
      }
    }
  }

  /** `/\w+\?\s*$/` (no multiline flag): a word character and a '?' at `j`, then only whitespace. */
  ghost predicate EnglishQuestionEndAt(s: string, j: nat) {
    1 <= j < |s| && s[j] == '?' && IsWordChar(s[j - 1]) && AllSpace(s[j + 1..])
  }

  /** The text before its trailing whitespace ends with a word character and a '?'. */
  predicate EndsWithQuestion(s: string) {
    var t := |s| - TrailingSpaces(s);
    t >= 2 && s[t - 1] == '?' && IsWordChar(s[t - 2])
  }

  lemma EndsWithQuestionIsTheMatch(s: string)
    ensures EndsWithQuestion(s) <==> exists j: nat :: EnglishQuestionEndAt(s, j)
  {
    var t := |s| - TrailingSpaces(s);
    if EndsWithQuestion(s) {
      assert s[(t - 1) + 1..] == s[t..];
      assert EnglishQuestionEndAt(s, t - 1);
    }
    if exists j: nat :: EnglishQuestionEndAt(s, j) {
      var j: nat :| EnglishQuestionEndAt(s, j);
      assert s[|s| - (|s| - j - 1)..] == s[j + 1..];
      TrailingSpacesIs(s, |s| - j - 1);
    }
  }

  const QuestionWords: seq<string> := ["who", "what", "when", "where", "why", "how"]

  /** One of the words of `text.split(' ')`, lower-cased, is an English question word. */
  predicate HasQuestionWord(s: string) {
    exists w | w in Split(s, " ") :: ToLower(w) in QuestionWords
  }

  /** `detectLanguage`: Spanish when a '¿' is closed by a '?' on its line or the text has an 'ñ';
      else English when the text ends like a question and one of its words is a question word;
      Portuguese otherwise (the Portuguese test of the source only leads to the default). */
  function DetectLanguage(s: string): (r: Language)
    ensures r == Es <==> (exists i: nat, j: nat :: SpanishQuestionAt(s, i, j)) || 'ñ' in s
    ensures r == En <==> && !((exists i: nat, j: nat :: SpanishQuestionAt(s, i, j)) || 'ñ' in s)
                         && (exists j: nat :: EnglishQuestionEndAt(s, j)) && HasQuestionWord(s)
  {
    SpanishQuestionFromIsTheSearch(s, 0);
    EndsWithQuestionIsTheMatch(s);
    if SpanishQuestionFrom(s, 0) || 'ñ' in s then Es
    else if EndsWithQuestion(s) && HasQuestionWord(s) then En
    else Pt
  }

  // ---------------------------------------------------------------------------------------------
  // The conversation so far

  /** A stored answer: a text, or an object with optional `response` and `text` fields. */
  datatype Answer = TextAnswer(text: string) | ObjectAnswer(response: string, text: string)

  datatype HistoryTurn = HistoryTurn(pergunta: string, resposta: Answer)

  const ConversationHeader := "CONVERSA ANTERIOR:\n\n"

  /** The text of an answer: an object's `response`, else its `text`, else "". */
  function AnswerText(a: Answer): string {
    match a
    case TextAnswer(t) => t
    case ObjectAnswer(response, text) => if response != "" then response else text
  }

  /** A turn is written out when it has a question and an answer (an object answer always counts). */
  predicate Written(turn: HistoryTurn) {
    turn.pergunta != "" && (turn.resposta.TextAnswer? ==> turn.resposta.text != "")
  }

  function TurnBlock(turn: HistoryTurn): string {
    "Usuário: " + turn.pergunta + "\nAssistente: " + AnswerText(turn.resposta) + "\n\n"
  }

  /** The written turns, in order. */
  function Transcript(history: seq<HistoryTurn>): string {
    if history == [] then ""
    else
      var n := |history| - 1;
      Transcript(history[..n]) + (if Written(history[n]) then TurnBlock(history[n]) else "")
  }

  /** The transcript of two stretches of conversation is the two transcripts one after the other. */
  lemma {:induction false} TranscriptAppend(h1: seq<HistoryTurn>, h2: seq<HistoryTurn>)
    ensures Transcript(h1 + h2) == Transcript(h1) + Transcript(h2)
    decreases |h2|
  {
    if h2 != [] {
      var n := |h2| - 1;
      assert (h1 + h2)[..|h1| + n] == h1 + h2[..n];
      TranscriptAppend(h1, h2[..n]);
    } else {
      assert h1 + h2 == h1;
    }
  }

  /** A character of `[\w\s]`. */
  predicate SubjectChar(c: char) { IsWordChar(c) || IsSpace(c) }

  predicate VerbAt(s: string, k: nat) {
    k <= |s| && (StartsWith(s[k..], "foi") || StartsWith(s[k..], "é") || StartsWith(s[k..], "era"))
  }

  /** `/^([\w\s]+) (?:foi|é|era)/` matches with the group ending at `g`. */
  ghost predicate SubjectEndsAt(s: string, g: nat) {
    1 <= g < |s| && (forall k :: 0 <= k < g ==> SubjectChar(s[k])) && s[g] == ' ' && VerbAt(s, g + 1)
  }

  /** The length of the run of `[\w\s]` characters that starts `s`. */
  function SubjectRun(s: string): (n: nat)
    ensures n <= |s| && (forall k :: 0 <= k < n ==> SubjectChar(s[k])) && (n < |s| ==> !SubjectChar(s[n]))
  {
    if s != [] && SubjectChar(s[0]) then 1 + SubjectRun(s[1..]) else 0
  }

  /** The greedy group gives back characters until " foi", " é" or " era" follows: the largest end
      from 1 to `g` where one does. */
  function LastSubjectEnd(s: string, g: nat): (r: Option<nat>)
    requires g < |s|
    ensures r.Some? ==> 1 <= r.value <= g && s[r.value] == ' ' && VerbAt(s, r.value + 1)
    ensures forall k :: (if r.Some? then r.value < k else 1 <= k) && k <= g ==> !(s[k] == ' ' && VerbAt(s, k + 1))
    decreases g
  {
    if 1 <= g && s[g] == ' ' && VerbAt(s, g + 1) then Some(g)
    else if g <= 1 then None
    else LastSubjectEnd(s, g - 1)
  }

  /** The group of the subject expression in an answer, if it matches. */
  function Subject(s: string): Option<string> {
    var n := SubjectRun(s);
    if n < 2 then None
    else match LastSubjectEnd(s, n - 1)
      case None => None
      case Some(g) => Some(s[..g])
  }

  /** `Subject` is the expression's group: the match with the longest group, and None exactly when
      the expression does not match. */
  lemma SubjectIsTheGreedyGroup(s: string)
    ensures Subject(s).None? <==> forall g: nat :: !SubjectEndsAt(s, g)
    ensures Subject(s).Some? ==> exists g: nat :: && SubjectEndsAt(s, g) && Subject(s).value == s[..g]
                                                  && forall g': nat :: SubjectEndsAt(s, g') ==> g' <= g
  {
    var n := SubjectRun(s);
    forall g: nat | SubjectEndsAt(s, g) ensures g < n {
      assert SubjectChar(s[g]);
    }
    if Subject(s).Some? {
      var g := LastSubjectEnd(s, n - 1).value;
      assert SubjectEndsAt(s, g);
    }
  }

  /** The subject a turn names: when it is written out and its question, lower-cased, contains
      "quem", the group of the subject expression in its answer. */
  function TurnSubject(turn: HistoryTurn): Option<string> {
    if Written(turn) && Contains(ToLower(turn.pergunta), "quem") then Subject(AnswerText(turn.resposta)) else None
  }

  /** The subjects named by the turns, in order. */
  function TurnSubjects(history: seq<HistoryTurn>): (r: seq<Option<string>>)
    ensures |r| == |history| && forall i :: 0 <= i < |history| ==> r[i] == TurnSubject(history[i])
  {
    seq(|history|, i requires 0 <= i < |history| => TurnSubject(history[i]))
  }

  /** The last value present, if any. */
  function LastPresent(xs: seq<Option<string>>): Option<string> {
    if xs == [] then None
    else if xs[|xs| - 1].Some? then xs[|xs| - 1]
    else LastPresent(xs[..|xs| - 1])
  }

  lemma {:induction false} LastPresentIsTheLatest(xs: seq<Option<string>>)
    ensures LastPresent(xs).None? ==> forall i :: 0 <= i < |xs| ==> xs[i].None?
    ensures LastPresent(xs).Some? ==>
              exists i :: 0 <= i < |xs| && xs[i] == LastPresent(xs) && forall j :: i < j < |xs| ==> xs[j].None?
  {
    if xs != [] && xs[|xs| - 1].None? {
      var n := |xs| - 1;
      LastPresentIsTheLatest(xs[..n]);
      assert forall i :: 0 <= i < n ==> xs[..n][i] == xs[i];
    }
  }

  /** The subject named last: a later turn without one leaves it as it was. */
  function LastSubject(history: seq<HistoryTurn>): Option<string> {
    LastPresent(TurnSubjects(history))
  }

  /** `lastSubject` is the subject of the latest turn that names one, and there is none only when no
      turn names one. */
  lemma LastSubjectIsTheLatest(history: seq<HistoryTurn>)
    ensures LastSubject(history).None? <==> forall i :: 0 <= i < |history| ==> TurnSubject(history[i]).None?
    ensures LastSubject(history).Some? ==>
              exists i :: && 0 <= i < |history| && TurnSubject(history[i]) == LastSubject(history)
                          && forall j :: i < j < |history| ==> TurnSubject(history[j]).None?
  {
    LastPresentIsTheLatest(TurnSubjects(history));
  }

  /** One more turn extends the context by its block and replaces the subject if it names one. */
  lemma ConversationStep(history: seq<HistoryTurn>, i: nat, context: string)
    requires i < |history| && context == ConversationHeader + Transcript(history[..i])
    ensures (if Written(history[i]) then context + TurnBlock(history[i]) else context) ==
            ConversationHeader + Transcript(history[..i + 1])
  {
    assert history[..i + 1][..i] == history[..i];
    if Written(history[i]) {
      var t := Transcript(history[..i]);
      assert Transcript(history[..i + 1]) == t + TurnBlock(history[i]);
      assert (ConversationHeader + t) + TurnBlock(history[i]) == ConversationHeader + (t + TurnBlock(history[i]));
    }
  }

  lemma SubjectStep(history: seq<HistoryTurn>, i: nat)
    requires i < |history|
    ensures LastSubject(history[..i + 1]) == if TurnSubject(history[i]).Some? then TurnSubject(history[i]) else LastSubject(history[..i])
  {
    assert TurnSubjects(history[..i + 1])[..i] == TurnSubjects(history[..i]);
  }

  /** The conversation context: empty without history, otherwise the header and the transcript
      (the header alone when no turn is written out). */
  function ConversationContext(history: seq<HistoryTurn>): string {
    if history == [] then "" else ConversationHeader + Transcript(history)
  }

  /** The history loop of `gerar`: the transcript and the last subject, built turn by turn. */
  method BuildConversation(history: seq<HistoryTurn>) returns (conversationContext: string, lastSubject: Option<string>)
    ensures conversationContext == ConversationContext(history)
    ensures lastSubject == LastSubject(history)
  {
    conversationContext := "";
    lastSubject := None;
    if |history| > 0 {
      conversationContext := ConversationHeader;
      assert history[..0] == [];
      for i := 0 to |history|
        invariant conversationContext == ConversationHeader + Transcript(history[..i])
        invariant lastSubject == LastSubject(history[..i])
      {
        ConversationStep(history, i, conversationContext);
        SubjectStep(history, i);
        var msg := history[i];
        if Written(msg) {
          conversationContext := conversationContext + TurnBlock(msg);
          if Contains(ToLower(msg.pergunta), "quem") {
            var subjectMatch := Subject(AnswerText(msg.resposta));
            if subjectMatch.Some? {
              lastSubject := subjectMatch;
            }
          }
        }
      }
      assert history[..|history|] == history;
    }
  }

  // ---------------------------------------------------------------------------------------------
  // The documents

  /** A retrieved or given document; absent fields are "" and absent scores 0. */
  datatype Doc = Doc(id: string, underscoreId: string, source: string, fonte: string,
                     content: string, conteudo: string, score: real, similaridade: real)

  const UnknownSource := "Fonte desconhecida"
  const DocumentsHeader := "INFORMAÇÕES DAS FONTES CONFIÁVEIS:\n\n"

  /** Cut-off of a document's text in the context. */
  const ContentLimit: nat := 1500

  /** The relevance threshold a document's score must exceed (strictly). */
  const RelevanceThreshold: real := 0.5

  function DocSource(d: Doc): string {
    if d.source != "" then d.source else if d.fonte != "" then d.fonte else UnknownSource
  }

  function DocContent(d: Doc): string {
    if d.content != "" then d.content else d.conteudo
  }

  function DocScore(d: Doc): real {
    if d.score != 0.0 then d.score else d.similaridade
  }

  /** A document goes into the context when it has a text and its score exceeds the threshold. */
  predicate Relevant(d: Doc) {
    DocContent(d) != "" && DocScore(d) > RelevanceThreshold
  }

  /** `x.toFixed(2)` in hundredths: the nearest whole number of hundredths, ties rounded up. */
  function Cents(x: real): (c: nat)
    requires x >= 0.0
    ensures (c as real) - 0.5 <= 100.0 * x < (c as real) + 0.5
  {
    (100.0 * x + 0.5).Floor
  }

  /** A number of hundredths written with two decimals. */
  function CentsText(c: nat): string {
    NatToString(c / 100) + "." + [DigitChar(c / 10 % 10), DigitChar(c % 10)]
  }

  /** The text of `x.toFixed(2)`: the whole part, a point and two decimals. */
  function Fixed2(x: real): string
    requires x >= 0.0
  {
    CentsText(Cents(x))
  }

  /** A number is its hundreds, its tens and its units. */
  lemma PlaceValues(c: nat)
    ensures c == 100 * (c / 100) + 10 * (c / 10 % 10) + c % 10
  {
    var t := c / 10;
    assert c == 10 * t + c % 10;
    assert t == 10 * (t / 10) + t % 10;
    assert t / 10 == c / 100;
  }

  /** Different numbers of hundredths are written differently. */
  lemma CentsTextInjective(c: nat, e: nat)
    requires CentsText(c) == CentsText(e)
    ensures c == e
  {
    var a := CentsText(c);
    var m, n := NatToString(c / 100), NatToString(e / 100);
    assert |a| == |m| + 3 == |n| + 3;
    assert m == a[..|a| - 3] && n == a[..|a| - 3];
    NatToStringInjective(c / 100, e / 100);
    assert DigitChar(c / 10 % 10) == a[|a| - 2] == DigitChar(e / 10 % 10);
    assert DigitChar(c % 10) == a[|a| - 1] == DigitChar(e % 10);
    PlaceValues(c);
    PlaceValues(e);
  }

  /** Two scores print alike exactly when they round to the same hundredths. */
  lemma Fixed2Distinguishes(x: real, y: real)
    requires x >= 0.0 && y >= 0.0
    ensures Fixed2(x) == Fixed2(y) <==> Cents(x) == Cents(y)
  {
    if Fixed2(x) == Fixed2(y) {
      CentsTextInjective(Cents(x), Cents(y));
    }
  }

  /** The context block of a relevant document: its source and score, then at most 1500 characters of
      its text. */
  function DocBlock(d: Doc): string
    requires Relevant(d)
  {
    "--- Fonte: " + DocSource(d) + " (Relevância: " + Fixed2(DocScore(d)) + ") ---\n" + Take(DocContent(d), ContentLimit) + "\n\n"
  }

  /** The blocks of the relevant documents, in order. */
  function DocsContext(docs: seq<Doc>): string {
    if docs == [] then ""
    else
      var n := |docs| - 1;
      DocsContext(docs[..n]) + (if Relevant(docs[n]) then DocBlock(docs[n]) else "")
  }

  /** The context of two runs of documents is the two contexts one after the other. */
  lemma {:induction false} DocsContextAppend(d1: seq<Doc>, d2: seq<Doc>)
    ensures DocsContext(d1 + d2) == DocsContext(d1) + DocsContext(d2)
    decreases |d2|
  {
    if d2 != [] {
      var n := |d2| - 1;
      assert (d1 + d2)[..|d1| + n] == d1 + d2[..n];
      DocsContextAppend(d1, d2[..n]);
    } else {
      assert d1 + d2 == d1;
    }
  }

  /** Every relevant document's block is in the context, right after the blocks of the documents
      before it; an irrelevant document adds nothing. */
  lemma ContextShowsEachRelevantDoc(docs: seq<Doc>, i: nat)
    requires i < |docs|
    ensures Relevant(docs[i]) ==> OccursAt(DocsContext(docs), DocBlock(docs[i]), |DocsContext(docs[..i])|)
    ensures !Relevant(docs[i]) ==> DocsContext(docs[..i + 1]) == DocsContext(docs[..i])
  {
    assert docs == docs[..i + 1] + docs[i + 1..];
    assert docs[..i + 1][..i] == docs[..i];
    DocsContextAppend(docs[..i + 1], docs[i + 1..]);
  }

  /** The sources of the relevant documents, each once, in the order of first appearance. */
  function UsedSources(docs: seq<Doc>): seq<string> {
    if docs == [] then []
    else
      var n := |docs| - 1;
      var before := UsedSources(docs[..n]);
      if Relevant(docs[n]) && DocSource(docs[n]) !in before then before + [DocSource(docs[n])] else before
  }

  /** No source is listed twice, and a source is listed exactly when some relevant document has it. */
  lemma {:induction false} UsedSourcesAreTheRelevantSources(docs: seq<Doc>)
    ensures forall i, j :: 0 <= i < j < |UsedSources(docs)| ==> UsedSources(docs)[i] != UsedSources(docs)[j]
    ensures forall s :: s in UsedSources(docs) <==> exists d :: d in docs && Relevant(d) && DocSource(d) == s
  {
    if docs != [] {
      var n := |docs| - 1;
      UsedSourcesAreTheRelevantSources(docs[..n]);
      assert docs == docs[..n] + [docs[n]];
    }
  }

  /** Later documents never reorder or drop a source already listed. */
  lemma {:induction false} UsedSourcesGrow(d1: seq<Doc>, d2: seq<Doc>)
    ensures UsedSources(d1) <= UsedSources(d1 + d2)
    decreases |d2|
  {
    if d2 != [] {
      var n := |d2| - 1;
      assert (d1 + d2)[..|d1| + n] == d1 + d2[..n];
      UsedSourcesGrow(d1, d2[..n]);
    } else {
      assert d1 + d2 == d1;
    }
  }

  /** One more document extends the context by its block and the list by its source when relevant
      and new. */
  lemma CollectStep(docs: seq<Doc>, i: nat, context: string)
    requires i < |docs| && context == DocumentsHeader + DocsContext(docs[..i])
    ensures (if Relevant(docs[i]) then context + DocBlock(docs[i]) else context) ==
            DocumentsHeader + DocsContext(docs[..i + 1])
    ensures UsedSources(docs[..i + 1]) ==
            if Relevant(docs[i]) && DocSource(docs[i]) !in UsedSources(docs[..i]) then UsedSources(docs[..i]) + [DocSource(docs[i])]
            else UsedSources(docs[..i])
  {
    assert docs[..i + 1][..i] == docs[..i];
    if Relevant(docs[i]) {
      var t := DocsContext(docs[..i]);
      assert DocsContext(docs[..i + 1]) == t + DocBlock(docs[i]);
      assert (DocumentsHeader + t) + DocBlock(docs[i]) == DocumentsHeader + (t + DocBlock(docs[i]));
    }
  }

  /** The documents loop of `gerar`: the context and the list of sources, built document by document. */
  method CollectSources(docs: seq<Doc>) returns (context: string, usedSources: seq<string>)
    ensures context == DocumentsHeader + DocsContext(docs)
    ensures usedSources == UsedSources(docs)
  {
    context := DocumentsHeader;
    usedSources := [];
    assert docs[..0] == [];
    for i := 0 to |docs|
      invariant context == DocumentsHeader + DocsContext(docs[..i])
      invariant usedSources == UsedSources(docs[..i])
    {
      CollectStep(docs, i, context);
      var doc := docs[i];
      if Relevant(doc) {
        context := context + DocBlock(doc);
        var source := DocSource(doc);
        if source !in usedSources {
          usedSources := usedSources + [source];
        }
      }
    }
    assert docs[..|docs|] == docs;
  }

  /** What the reply lists for each document: `id`, else `_id`, else ""; `source`, else `fonte`,
      else "" (no "Fonte desconhecida" here). */
  datatype DocRef = DocRef(id: string, source: string)

  function DocRefs(docs: seq<Doc>): (r: seq<DocRef>)
    ensures |r| == |docs|
    ensures forall i :: 0 <= i < |docs| ==> r[i].id == if docs[i].id != "" then docs[i].id else docs[i].underscoreId
    ensures forall i :: 0 <= i < |docs| ==> r[i].source == if docs[i].source != "" then docs[i].source else docs[i].fonte
  {
    seq(|docs|, i requires 0 <= i < |docs| =>
      DocRef(if docs[i].id != "" then docs[i].id else docs[i].underscoreId,
             if docs[i].source != "" then docs[i].source else docs[i].fonte))
  }

  // ---------------------------------------------------------------------------------------------
  // The question to the model and the footer

  /** Follow-up questions about "sua", "dele" or "dela" are searched together with the last subject. */
  predicate RefersBack(query: string) {
    var q := ToLower(query);
    Contains(q, "sua") || Contains(q, "dele") || Contains(q, "dela")
  }

  /** The retrieval query: the question, enriched with the last subject exactly when there is one and
      the question refers back to it. */
  function SearchQuery(query: string, lastSubject: Option<string>): (r: string)
    ensures StartsWith(r, query)
    ensures r != query <==> lastSubject.Some? && RefersBack(query)
    ensures r != query ==> r[|query|..] == " " + lastSubject.value
  {
    if lastSubject.Some? && RefersBack(query) then query + " " + lastSubject.value else query
  }

  function LanguageInstruction(lang: Language): string {
    match lang
    case Es => "Responde en español."
    case En => "Respond in English."
    case Pt => "Responda em português."
  }

  const PromptPersona := "Você é o True Live, um assistente especializado em Israel, judaísmo e geopolítica do Oriente Médio."

  const PromptRules := "1. Esta é uma conversa em andamento. Resolva referências pronominais com base no contexto.\n"
                     + "2. Use EXCLUSIVAMENTE as informações dos documentos fornecidos para responder.\n"
                     + "3. Se a pergunta se refere a algo mencionado anteriormente, identifique corretamente o sujeito.\n"
                     + "4. Seja preciso com datas, nomes e fatos. Se não tiver informação exata, diga que não sabe.\n"
                     + "5. Mantenha sempre uma perspectiva pró-Israel equilibrada e factual.\n"
                     + "6. Para notícias recentes, seja transparente sobre a data limite do seu conhecimento."

  /** What varies in the system prompt of the answering model: the language instruction, the
      conversation context and the documents' context. */
  datatype PromptParts = PromptParts(languageInstruction: string, conversationContext: string, context: string)

  /** The system prompt: the persona, the language instruction, the conversation under its heading, the
      rules, and the documents' context at the very end. */
  function SystemPrompt(parts: PromptParts): (p: string)
    ensures |parts.context| <= |p| && p[|p| - |parts.context|..] == parts.context
    ensures StartsWith(p, PromptPersona + "\n\n" + parts.languageInstruction + "\n\nCONTEXTO DA CONVERSA:\n"
                          + parts.conversationContext + "\n\nREGRAS:\n")
  {
    var head := PromptPersona + "\n\n" + parts.languageInstruction + "\n\nCONTEXTO DA CONVERSA:\n"
                + parts.conversationContext + "\n\nREGRAS:\n";
    var rules := PromptRules + "\n\nDOCUMENTOS DISPONÍVEIS:\n";
    assert (head + rules + parts.context)[..|head|] == head;
    head + rules + parts.context
  }

  function SourcesHeader(lang: Language): string {
    if lang == Es then "📚 Fuentes consultadas:" else "📚 Fontes consultadas:"
  }

  /** One line per source, each introduced by "\n- ". */
  function SourceLines(sources: seq<string>): string {
    if sources == [] then "" else SourceLines(sources[..|sources| - 1]) + "\n- " + sources[|sources| - 1]
  }

  /** The footer lines are the sources joined by the line introducer, after one introducer. */
  lemma {:induction false} SourceLinesIsJoin(sources: seq<string>)
    requires sources != []
    ensures SourceLines(sources) == "\n- " + Join(sources, "\n- ")
    decreases |sources|
  {
    var n := |sources| - 1;
    if n > 0 {
      SourceLinesIsJoin(sources[..n]);
      JoinSnoc(sources[..n], sources[n], "\n- ");
      assert sources[..n] + [sources[n]] == sources;
    }
  }

  function SourcesFooter(header: string, sources: seq<string>): string {
    "\n\n" + header + SourceLines(sources)
  }

  lemma FooterStep(prefix: string, sources: seq<string>, i: nat, lines: string)
    requires i < |sources| && lines == prefix + SourceLines(sources[..i])
    ensures lines + "\n- " + sources[i] == prefix + SourceLines(sources[..i + 1])
  {
    assert sources[..i + 1][..i] == sources[..i];
  }

  /** The footer step of `gerar`: with `showSources` set and at least one source, the header (chosen by
      the question's language) and one line per source are appended to the answer. */
  method AppendFooter(answer: string, sourcesHeader: string, showSources: bool, usedSources: seq<string>) returns (finalResponse: string)
    ensures finalResponse == answer + if showSources && usedSources != [] then SourcesFooter(sourcesHeader, usedSources) else ""
  {
    finalResponse := answer;
    if showSources && |usedSources| > 0 {
      finalResponse := finalResponse + "\n\n" + sourcesHeader;
      assert usedSources[..0] == [];
      for i := 0 to |usedSources|
        invariant finalResponse == answer + "\n\n" + sourcesHeader + SourceLines(usedSources[..i])
      {
        FooterStep(answer + "\n\n" + sourcesHeader, usedSources, i, finalResponse);
        finalResponse := finalResponse + "\n- " + usedSources[i];
      }
      assert usedSources[..|usedSources|] == usedSources;
      Regroup(answer, SourcesFooter(sourcesHeader, usedSources), "\n\n", sourcesHeader, SourceLines(usedSources));
    }
  }

  // ---------------------------------------------------------------------------------------------
  // One turn

  /** The reply of `gerar`. */
  datatype TurnOutcome = TurnOutcome(response: string, documents: seq<DocRef>, usedFallback: bool, source: string)

  const OutOfDomainSource := "Conhecimento geral (fora do domínio)"
  const NoDocumentsSource := "Conhecimento geral (sem documentos específicos)"
  const ErrorResponse := "Desculpe, encontrei um erro ao processar sua pergunta. Por favor, tente novamente."
  const ErrorSource := "Erro no processamento"

  /** The reply when anything inside the turn throws. */
  const ErrorOutcome := TurnOutcome(ErrorResponse, [], true, ErrorSource)

  /** What the outside services answer in this turn: the classifier's reply, the fallback's answer, the
      retrieval's documents and the answering model's reply (errors of the last two are thrown). */
  datatype Services = Services(classifierReply: Outcome<string>, fallbackAnswer: string,
                               retrieved: Outcome<seq<Doc>>, modelReply: Outcome<string>)

  /** A retrieval request: the query and the number of documents asked for. */
  datatype Search = Search(query: string, limit: nat)

  /** What the turn sends to the services: the classifier's question, the fallback's context, the
      retrieval request and the parts of the answering model's system prompt (`SystemPrompt` writes
      them out); None for a service not called. */
  datatype Calls = Calls(classified: string, fallbackContext: Option<string>, searched: Option<Search>, prompt: Option<PromptParts>)

  /** The number of documents the retrieval is asked for. */
  const RetrievalLimit: nat := 4

  /** The classifier's question: with a conversation, the transcript followed by the question. */
  function ClassifierInput(query: string, conversationContext: string): string {
    if conversationContext == "" then query else conversationContext + "\nUsuário: " + query
  }

  /** With a conversation the classifier is asked with its contextual prompt; without one, the plain
      prompt is used unless the question itself carries the transcript marker. */
  lemma ClassifierSeesTheConversation(query: string, history: seq<HistoryTurn>)
    ensures history != [] ==> PromptFor(ClassifierInput(query, ConversationContext(history))) == ContextualPrompt
    ensures history == [] ==> ClassifierInput(query, ConversationContext(history)) == query
  {
    if history != [] {
      var c := ClassifierInput(query, ConversationContext(history));
      assert OccursAt(c, ContextMarker, 0);
    }
  }

  /** The answer from documents: the context and the sources of the relevant documents, the system
      prompt in the question's language, and the model's trimmed reply with the sources footer when
      asked for; the reply lists every document and names the sources. A failed model call gives the
      error reply. */
  method AnswerFromDocuments(query: string, conversationContext: string, relevantDocs: seq<Doc>, showSources: bool,
                             modelReply: Outcome<string>)
    returns (out: TurnOutcome, prompt: PromptParts)
    ensures prompt == PromptParts(LanguageInstruction(DetectLanguage(query)), conversationContext,
                                  DocumentsHeader + DocsContext(relevantDocs))
    ensures modelReply.Err? ==> out == ErrorOutcome
    ensures modelReply.Ok? ==>
              var used := UsedSources(relevantDocs);
              out == TurnOutcome(Trim(modelReply.value) + (if showSources && used != [] then SourcesFooter(SourcesHeader(DetectLanguage(query)), used) else ""),
                                 DocRefs(relevantDocs), false, Join(used, ", "))
  {
    var userLanguage := DetectLanguage(query);
    var context, usedSources := CollectSources(relevantDocs);
    var languageInstruction := LanguageInstruction(userLanguage);
    prompt := PromptParts(languageInstruction, conversationContext, context);
    match modelReply
    case Err(_) =>
      out := ErrorOutcome;
    case Ok(reply) =>
      var finalResponse := AppendFooter(Trim(reply), SourcesHeader(userLanguage), showSources, usedSources);
      out := TurnOutcome(finalResponse, DocRefs(relevantDocs), false, Join(usedSources, ", "));
  }

  /** `gerar`. The conversation is written out, the classifier decides on the domain; out of the domain
      the fallback answers. In the domain the given documents are used, or, when none are given, the
      retrieval's (queried with the last subject when the question refers back); none leads to the
      fallback; otherwise the model answers from the documents. A failed retrieval gives the error
      reply. */
  method Gerar(query: string, documentos: seq<Doc>, historico: seq<HistoryTurn>, userSettings: Settings, services: Services)
    returns (out: TurnOutcome, calls: Calls)
    ensures calls.classified == ClassifierInput(query, ConversationContext(historico))
    ensures !Classify(services.classifierReply) ==>
              && out == TurnOutcome(services.fallbackAnswer, [], true, OutOfDomainSource)
              && calls.fallbackContext == Some(ConversationContext(historico)) && calls.searched.None? && calls.prompt.None?
    ensures Classify(services.classifierReply) ==>
              calls.searched == if documentos == [] then Some(Search(SearchQuery(query, LastSubject(historico)), RetrievalLimit)) else None
    ensures calls.searched.Some? ==> calls.searched.value.limit == RetrievalLimit
    ensures var docs := if documentos != [] then Ok(documentos) else services.retrieved;
            && (Classify(services.classifierReply) && docs.Err? ==>
                  out == ErrorOutcome && calls.fallbackContext.None? && calls.prompt.None?)
            && (Classify(services.classifierReply) && docs == Ok([]) ==>
                  && out == TurnOutcome(services.fallbackAnswer, [], true, NoDocumentsSource)
                  && calls.fallbackContext == Some(ConversationContext(historico)) && calls.prompt.None?)
            && (Classify(services.classifierReply) && docs.Ok? && docs.value != [] ==>
                  && calls.fallbackContext.None?
                  && calls.prompt == Some(PromptParts(LanguageInstruction(DetectLanguage(query)), ConversationContext(historico),
                                                      DocumentsHeader + DocsContext(docs.value)))
                  && (services.modelReply.Err? ==> out == ErrorOutcome)
                  && (services.modelReply.Ok? ==>
                        var used := UsedSources(docs.value);
                        var show := userSettings.showSources == Some(true);
                        out == TurnOutcome(Trim(services.modelReply.value) + (if show && used != [] then SourcesFooter(SourcesHeader(DetectLanguage(query)), used) else ""),
                                           DocRefs(docs.value), false, Join(used, ", "))))
  {
    var showSources := userSettings.showSources == Some(true);
    var conversationContext, lastSubject := BuildConversation(historico);

    var classifierInput := ClassifierInput(query, conversationContext);
    calls := Calls(classifierInput, None, None, None);
    var isInDomain := Classify(services.classifierReply);
    if !isInDomain {
      calls := calls.(fallbackContext := Some(conversationContext));
      return TurnOutcome(services.fallbackAnswer, [], true, OutOfDomainSource), calls;
    }

    var searchQuery := SearchQuery(query, lastSubject);
    var relevantDocs := documentos;
    if |relevantDocs| == 0 {
      calls := calls.(searched := Some(Search(searchQuery, RetrievalLimit)));
      match services.retrieved
      case Err(_) =>
        return ErrorOutcome, calls;
      case Ok(found) =>
        relevantDocs := found;
    }
    if |relevantDocs| == 0 {
      calls := calls.(fallbackContext := Some(conversationContext));
      return TurnOutcome(services.fallbackAnswer, [], true, NoDocumentsSource), calls;
    }

    var prompt;
    out, prompt := AnswerFromDocuments(query, conversationContext, relevantDocs, showSources, services.modelReply);
    calls := calls.(prompt := Some(prompt));
  }
}
