/** The domain gate of utils/domainClassifier.js: which system prompt the classifier gets, and how its
    reply is read. The classifier itself is an LLM call; its reply is an input. */
module DomainClassifier {
  import opened Results
  import opened JsStrings

  /** The marker the turn pipeline puts in front of a conversation transcript. */
  const ContextMarker: string := "CONVERSA ANTERIOR:"

  /** The two system prompts: one that treats references to earlier turns as in-domain, one plain. */
  datatype SystemPrompt = ContextualPrompt | PlainPrompt

  /** The contextual prompt is chosen exactly when the question carries a transcript marker. */
  function PromptFor(query: string): (p: SystemPrompt)
    ensures p == ContextualPrompt <==> Contains(query, ContextMarker)
  {
    if Contains(query, ContextMarker) then ContextualPrompt else PlainPrompt
  }

  /** `classificar` after the call: in the domain iff the reply is "true" once trimmed and lowercased;
      an error of the call counts as in the domain (fail-open). */
  function Classify(reply: Outcome<string>): (inDomain: bool)
  {
    match reply
    case Err(_) => true
    case Ok(text) => ToLower(Trim(text)) == "true"
  }

  /** `text[i..j]` reads "true" in any letter case. */
  predicate TrueBetween(text: string, i: int, j: int) {
    0 <= i <= j <= |text| && ToLower(text[i..j]) == "true"
  }

  /** A reply is "true" in any letter case with nothing but whitespace around it. */
  ghost predicate IsPaddedTrue(text: string) {
    exists i, j :: TrueBetween(text, i, j) && AllSpace(text[..i]) && AllSpace(text[j..])
  }

  /** Fail-open, and the reply rule stated without `trim`: a reply is accepted iff it is the word
      "true" in any letter case surrounded by whitespace only. */
  lemma ClassifyAccepts(reply: Outcome<string>)
    ensures reply.Err? ==> Classify(reply)
    ensures reply.Ok? ==> (Classify(reply) <==> IsPaddedTrue(reply.value))
  {
    if reply.Ok? {
      if Classify(reply) {
        AcceptedIsPadded(reply.value);
      }
      if IsPaddedTrue(reply.value) {
        PaddedIsAccepted(reply.value);
      }
    }
  }

  lemma AcceptedIsPadded(text: string)
    requires ToLower(Trim(text)) == "true"
    ensures IsPaddedTrue(text)
  {
    var w1, w2 := TrimParts(text);
    var i, j := |w1|, |w1| + |Trim(text)|;
    assert text[..i] == w1 && text[i..j] == Trim(text) && text[j..] == w2;
    assert TrueBetween(text, i, j);
  }

  lemma PaddedIsAccepted(text: string)
    requires IsPaddedTrue(text)
    ensures ToLower(Trim(text)) == "true"
  {
    var i, j :| TrueBetween(text, i, j) && AllSpace(text[..i]) && AllSpace(text[j..]);
    var t := text[i..j];
    assert |t| == 4;
    assert LowerChar(t[0]) == 't' && LowerChar(t[3]) == 'e';
    assert IsTrimmed(t);
    assert text == text[..i] + t + text[j..];
    TrimUnique(text[..i], t, text[j..]);
  }

  /** Replies other than "true" are rejected, among them "sim", "false", "true." and the empty reply. */
  lemma ClassifyRejects()
    ensures !Classify(Ok("sim")) && !Classify(Ok("")) && !Classify(Ok("false"))
  {
    TrimUnique([], "false", []);
    assert [] + "false" + [] == "false";
  }

  /** A trailing full stop is not ignored: "true." is rejected. */
  lemma ClassifyRejectsFullStop()
    ensures !Classify(Ok("true."))
  {
    TrimUnique([], "true.", []);
    assert [] + "true." + [] == "true.";
  }

  /** Padding and letter case are ignored: " True\n" is accepted. */
  lemma ClassifyIgnoresPaddingAndCase()
    ensures Classify(Ok(" True\n"))
  {
    TrimUnique(" ", "True", "\n");
    assert " " + "True" + "\n" == " True\n";
    assert ToLower("True") == "true";
  }
}
