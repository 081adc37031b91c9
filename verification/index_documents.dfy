/** scripts/indexDocuments.js: `processFontes` reads the Python list `fontes_especificas` out of the
    text of `fontes.py`, turns each quoted item into a document (type, title, source, id and a fixed
    content template) and tallies the results of indexing them. Reading the file and the indexing
    calls are outside the model: the file text and the results are inputs. */
module IndexDocuments {
  import opened Results
  import opened JsStrings
  import DocumentIndexer

  const ListName := "fontes_especificas"

  /** The message of the error raised when the list is not found. */
  const FormatError := "Formato de fontes.py não reconhecido"

  /** The separator between title and source inside an item: space, EN DASH, space. */
  const TitleSeparator := " – "

  /** What the list body is cut at. */
  const ItemSeparator := ",\n"

  const ContentPrefix := "Fonte confiável sobre Israel, judaísmo e Oriente Médio: "
  const ContentSuffix := ". \n                 Esta fonte fornece informações precisas e perspectivas alinhadas \n                 com valores judaicos e israelenses."

  // ---------------------------------------------------------------------------------------------
  // The regular expression /fontes_especificas\s*=\s*\[([\s\S]*?)\]/

  /** The expression matches at `i`, its two `\s*` taking `w1` and `w2` and its lazy group capturing
      `body`: from `i` the text reads the list name, `w1`, "=", `w2`, "[", `body` and "]", and the
      lazy group stops at the first `]`, so the body holds none. */
  ghost predicate ListPatternAt(s: string, i: nat, w1: string, w2: string, body: string) {
    var j := i + |ListName|;
    var k := j + |w1|;
    var m := k + 1 + |w2|;
    var e := m + 1 + |body|;
    && AllSpace(w1) && AllSpace(w2)
    && (forall q :: 0 <= q < |body| ==> body[q] != ']')
    && e < |s|
    && OccursAt(s, ListName, i) && OccursAt(s, w1, j) && s[k] == '='
    && OccursAt(s, w2, k + 1) && s[m] == '[' && OccursAt(s, body, m + 1) && s[e] == ']'
  }

  /** The position just after `\s*=\s*\[` when that matches at `j`. */
  function OpenBracketEnd(s: string, j: nat): (r: Option<nat>)
    requires j <= |s|
    ensures r.Some? ==> j < r.value <= |s| && s[r.value - 1] == '['
  {
    var k := SpacesEnd(s, j);
    if k < |s| && s[k] == '=' then
      var m := SpacesEnd(s, k + 1);
      if m < |s| && s[m] == '[' then Some(m + 1) else None
    else None
  }

  /** The capture of a match starting at `i`, if the expression matches there. */
  function BodyAt(s: string, i: nat): Option<string>
    requires i <= |s|
  {
    if !OccursAt(s, ListName, i) then None
    else
      match OpenBracketEnd(s, i + |ListName|)
      case None => None
      case Some(b) =>
        var e := ClosingBracketFrom(s, b);
        if e == |s| then None else Some(s[b..e])
  }

  /** The first match at or after `i`. */
  function SearchFrom(s: string, i: nat): Option<string>
    requires i <= |s|
    decreases |s| - i
  {
    if BodyAt(s, i).Some? then BodyAt(s, i)
    else if i == |s| then None
    else SearchFrom(s, i + 1)
  }

  /** `fontesContent.match(...)[1]`, or None when there is no match. */
  function ListBody(s: string): Option<string> {
    SearchFrom(s, 0)
  }

  /** The first `]` at or after `b`, or `|s|`: where the lazy group stops. */
  function ClosingBracketFrom(s: string, b: nat): (r: nat)
    requires b <= |s|
    ensures b <= r <= |s| && (r < |s| ==> s[r] == ']')
    ensures forall k :: b <= k < r ==> s[k] != ']'
    decreases |s| - b
  {
    if b == |s| || s[b] == ']' then b else ClosingBracketFrom(s, b + 1)
  }

  /** `\s*` takes the whitespace run `w` that stands at `j` before the character at `j + |w|`. */
  lemma SkipSpaces(s: string, j: nat, w: string)
    requires AllSpace(w) && OccursAt(s, w, j) && j + |w| < |s| && !IsSpace(s[j + |w|])
    ensures SpacesEnd(s, j) == j + |w|
  {
    var x := s[j..];
    assert x[..|w|] == s[j..j + |w|] == w;
    assert x[|w|] == s[j + |w|];
    LeadingSpacesBefore(x, w);
  }

  /** `\s*=\s*\[` matches at `j` taking `w1` and `w2`. */
  lemma OpenBracketEndOf(s: string, j: nat, w1: string, w2: string)
    requires AllSpace(w1) && AllSpace(w2)
    requires j + |w1| + 1 + |w2| < |s|
    requires OccursAt(s, w1, j) && s[j + |w1|] == '=' && OccursAt(s, w2, j + |w1| + 1) && s[j + |w1| + 1 + |w2|] == '['
    ensures OpenBracketEnd(s, j) == Some(j + |w1| + 1 + |w2| + 1)
  {
    SkipSpaces(s, j, w1);
    SkipSpaces(s, j + |w1| + 1, w2);
  }

  /** Every match of the expression is found by the scanner at its position. */
  lemma BodyAtComplete(s: string, i: nat, w1: string, w2: string, body: string)
    requires ListPatternAt(s, i, w1, w2, body)
    ensures BodyAt(s, i) == Some(body)
  {
    var j := i + |ListName|;
    var b := j + |w1| + 1 + |w2| + 1;
    OpenBracketEndOf(s, j, w1, w2);
    ClosingAfter(s, b, body);
    BodyAtFrom(s, i);
  }

  /** The capture at `i` once the list name and `\s*=\s*\[` are found there. */
  lemma BodyAtFrom(s: string, i: nat)
    requires i <= |s|
    ensures BodyAt(s, i).Some? ==> OccursAt(s, ListName, i) && OpenBracketEnd(s, i + |ListName|).Some?
    ensures OccursAt(s, ListName, i) && OpenBracketEnd(s, i + |ListName|).Some? ==>
              var b := OpenBracketEnd(s, i + |ListName|).value;
              BodyAt(s, i) == if ClosingBracketFrom(s, b) == |s| then None else Some(s[b..ClosingBracketFrom(s, b)])
  {
  }

  /** A text free of `]` followed by `]` ends at the first `]` after its start. */
  lemma ClosingAfter(s: string, b: nat, body: string)
    requires OccursAt(s, body, b) && b + |body| < |s| && s[b + |body|] == ']'
    requires forall q :: 0 <= q < |body| ==> body[q] != ']'
    ensures ClosingBracketFrom(s, b) == b + |body|
  {
    assert forall q :: 0 <= q < |body| ==> s[b + q] == body[q];
  }

  /** What `OpenBracketEnd` finds is `\s*=\s*\[`. */
  lemma OpenBracketEndSound(s: string, j: nat) returns (w1: string, w2: string)
    requires j <= |s| && OpenBracketEnd(s, j).Some?
    ensures AllSpace(w1) && AllSpace(w2)
    ensures OpenBracketEnd(s, j) == Some(j + |w1| + 1 + |w2| + 1)
    ensures OccursAt(s, w1, j) && s[j + |w1|] == '=' && OccursAt(s, w2, j + |w1| + 1)
    ensures s[j + |w1| + 1 + |w2|] == '['
  {
    var k := SpacesEnd(s, j);
    var m := SpacesEnd(s, k + 1);
    w1, w2 := s[j..k], s[k + 1..m];
  }

  /** The text before the first `]` holds none. */
  lemma ClosingBracketSound(s: string, b: nat)
    requires b <= |s|
    ensures var e := ClosingBracketFrom(s, b); forall q :: 0 <= q < e - b ==> s[b..e][q] != ']'
  {
    var e := ClosingBracketFrom(s, b);
    assert forall q :: 0 <= q < e - b ==> s[b..e][q] == s[b + q];
  }

  /** Whatever the scanner finds at a position is a match of the expression there. */
  lemma BodyAtSound(s: string, i: nat) returns (w1: string, w2: string)
    requires i <= |s| && BodyAt(s, i).Some?
    ensures ListPatternAt(s, i, w1, w2, BodyAt(s, i).value)
  {
    BodyAtFrom(s, i);
    var j := i + |ListName|;
    w1, w2 := OpenBracketEndSound(s, j);
    var b := j + |w1| + 1 + |w2| + 1;
    ClosingBracketSound(s, b);
    var e := ClosingBracketFrom(s, b);
    assert BodyAt(s, i) == Some(s[b..e]);
    PatternThroughBracket(s, i, w1, w2, b, e);
  }

  /** The list name and `\s*=\s*\[` found at `i`, then a text free of `]` up to a `]` at `e`, form
      a match. */
  lemma PatternThroughBracket(s: string, i: nat, w1: string, w2: string, b: nat, e: nat)
    requires OccursAt(s, ListName, i)
    requires var j := i + |ListName|;
      && AllSpace(w1) && AllSpace(w2) && j + |w1| + 1 + |w2| < |s|
      && OccursAt(s, w1, j) && s[j + |w1|] == '=' && OccursAt(s, w2, j + |w1| + 1) && s[j + |w1| + 1 + |w2|] == '['
    requires b == i + |ListName| + |w1| + 1 + |w2| + 1
    requires b <= e < |s| && s[e] == ']' && forall q :: 0 <= q < e - b ==> s[b..e][q] != ']'
    ensures ListPatternAt(s, i, w1, w2, s[b..e])
  {
    PatternFromParts(s, i, w1, w2, s[b..e]);
  }

  /** The parts found one after the other form a match. */
  lemma PatternFromParts(s: string, i: nat, w1: string, w2: string, body: string)
    requires OccursAt(s, ListName, i)
    requires var j := i + |ListName|;
      && AllSpace(w1) && AllSpace(w2) && j + |w1| + 1 + |w2| < |s|
      && OccursAt(s, w1, j) && s[j + |w1|] == '=' && OccursAt(s, w2, j + |w1| + 1) && s[j + |w1| + 1 + |w2|] == '['
    requires var b := i + |ListName| + |w1| + 1 + |w2| + 1;
      && OccursAt(s, body, b) && b + |body| < |s| && s[b + |body|] == ']'
      && forall q :: 0 <= q < |body| ==> body[q] != ']'
    ensures ListPatternAt(s, i, w1, w2, body)
  {
  }

  lemma {:induction false} SearchFromIsLeftmost(s: string, i: nat)
    requires i <= |s|
    requires forall p: nat, a, b, t :: p < i ==> !ListPatternAt(s, p, a, b, t)
    ensures SearchFrom(s, i).Some? ==>
              exists p: nat, w1, w2 :: ListPatternAt(s, p, w1, w2, SearchFrom(s, i).value)
                                  && forall q: nat, a, b, t :: q < p ==> !ListPatternAt(s, q, a, b, t)
    ensures SearchFrom(s, i).None? ==> forall p: nat, a, b, t :: !ListPatternAt(s, p, a, b, t)
    decreases |s| - i
  {
    if BodyAt(s, i).Some? {
      var w1, w2 := BodyAtSound(s, i);
    } else {
      forall a, b, t ensures !ListPatternAt(s, i, a, b, t) {
        if ListPatternAt(s, i, a, b, t) { BodyAtComplete(s, i, a, b, t); }
      }
      if i < |s| {
        SearchFromIsLeftmost(s, i + 1);
      } else {
        forall p: nat, a, b, t | i < p ensures !ListPatternAt(s, p, a, b, t) { }
      }
    }
  }

  /** The scanner is the regular expression: it captures the body of the leftmost match, and finds
      nothing exactly when the expression matches nowhere. */
  lemma ListBodyIsTheLeftmostMatch(s: string)
    ensures ListBody(s).Some? ==>
              exists p: nat, w1, w2 :: ListPatternAt(s, p, w1, w2, ListBody(s).value)
                                  && forall q: nat, a, b, t :: q < p ==> !ListPatternAt(s, q, a, b, t)
    ensures ListBody(s).None? <==> forall p: nat, a, b, t :: !ListPatternAt(s, p, a, b, t)
  {
    SearchFromIsLeftmost(s, 0);
  }

  // ---------------------------------------------------------------------------------------------
  // From the list body to documents

  predicate IsQuote(c: char) { c == '"' || c == '\'' }

  predicate StartsWithQuote(s: string) { |s| > 0 && IsQuote(s[0]) }

  /** `.filter(...)`: the lines that start with a quote. */
  function KeepQuoted(lines: seq<string>): (r: seq<string>)
    ensures |r| <= |lines|
    ensures forall x :: x in r <==> x in lines && StartsWithQuote(x)
  {
    if lines == [] then []
    else
      var rest := KeepQuoted(lines[1..]);
      assert lines == [lines[0]] + lines[1..];
      if StartsWithQuote(lines[0]) then [lines[0]] + rest else rest
  }

  /** The filter keeps the order of the lines: it distributes over concatenation. */
  lemma {:induction false} KeepQuotedAppend(xs: seq<string>, ys: seq<string>)
    ensures KeepQuoted(xs + ys) == KeepQuoted(xs) + KeepQuoted(ys)
  {
    if xs != [] {
      assert (xs + ys)[0] == xs[0] && (xs + ys)[1..] == xs[1..] + ys;
      KeepQuotedAppend(xs[1..], ys);
    } else {
      assert xs + ys == ys;
    }
  }

  /** The items of the list: the body cut at ",\n", each piece trimmed, those starting with a quote
      kept in order. */
  function Items(body: string): seq<string> {
    KeepQuoted(TrimAll(Split(body, ItemSeparator)))
  }

  /** The items of a body cut into `parts` are exactly the trimmed parts that start with a quote,
      each of them trimmed. */
  lemma QuotedTrimmedPieces(parts: seq<string>)
    ensures var r := KeepQuoted(TrimAll(parts));
      && (forall x :: x in r <==> (exists k :: 0 <= k < |parts| && x == Trim(parts[k])) && StartsWithQuote(x))
      && (forall x :: x in r ==> IsTrimmed(x))
  {
    var trimmed := TrimAll(parts);
    forall x | x in trimmed ensures exists k :: 0 <= k < |parts| && x == Trim(parts[k]) {
      var k :| 0 <= k < |trimmed| && trimmed[k] == x;
    }
    forall k | 0 <= k < |parts| ensures Trim(parts[k]) in trimmed {
      assert trimmed[k] == Trim(parts[k]);
    }
  }

  /** `replace(/^["']|["']$/g, '')`: one quote off the front, one off the end. A lone quote is
      removed once. */
  function StripQuotes(s: string): (r: string)
    ensures |s| > 0 && IsQuote(s[0]) && |s| > 1 && IsQuote(s[|s| - 1]) ==> r == s[1..|s| - 1]
    ensures |s| > 0 && IsQuote(s[0]) && !(|s| > 1 && IsQuote(s[|s| - 1])) ==> r == s[1..]
    ensures !(|s| > 0 && IsQuote(s[0])) && |s| > 0 && IsQuote(s[|s| - 1]) ==> r == s[..|s| - 1]
    ensures !(|s| > 0 && IsQuote(s[0])) && !(|s| > 0 && IsQuote(s[|s| - 1])) ==> r == s
  {
    var a := if |s| > 0 && IsQuote(s[0]) then 1 else 0;
    var b := if |s| > a && IsQuote(s[|s| - 1]) then |s| - 1 else |s|;
    s[a..b]
  }

  /** `/\d{4}/.test(s)` */
  predicate HasFourDigits(s: string) {
    exists i | 0 <= i <= |s| - 4 :: IsDigit(s[i]) && IsDigit(s[i + 1]) && IsDigit(s[i + 2]) && IsDigit(s[i + 3])
  }

  /** The type of a source: a web site if it mentions "http", a book if it holds a four-digit run
      (a year), anything else otherwise. */
  function Classify(f: string): (t: string)
    ensures t == "website" <==> Contains(f, "http")
    ensures t == "livro" <==> !Contains(f, "http") && HasFourDigits(f)
    ensures t == "outros" <==> !Contains(f, "http") && !HasFourDigits(f)
  {
    if Contains(f, "http") then "website"
    else if HasFourDigits(f) then "livro"
    else "outros"
  }

  /** Title and source of an item: when it holds the separator, the trimmed first and second
      segments of `split(' – ')`, the first again when the second is empty; otherwise the item. */
  function TitleAndSource(f: string): (string, string) {
    if Contains(f, TitleSeparator) then
      var parts := Split(f, TitleSeparator);
      var title := Trim(parts[0]);
      (title, if |parts| > 1 && parts[1] != "" then Trim(parts[1]) else title)
    else (f, f)
  }

  /** Stated with the separator's occurrences: the title is the trimmed text before the first one,
      the source the trimmed text between it and the next one (or the end), or the title when that
      text is empty. */
  lemma TitleAndSourceBySeparator(f: string)
    ensures !Contains(f, TitleSeparator) ==> TitleAndSource(f) == (f, f)
    ensures Contains(f, TitleSeparator) ==>
              var i := IndexOf(f, TitleSeparator);
              var rest := f[i + |TitleSeparator|..];
              var seg := if Contains(rest, TitleSeparator) then rest[..IndexOf(rest, TitleSeparator)] else rest;
              TitleAndSource(f) == (Trim(f[..i]), if seg != "" then Trim(seg) else Trim(f[..i]))
  {
    if Contains(f, TitleSeparator) {
      var i := IndexOf(f, TitleSeparator);
      var rest := f[i + |TitleSeparator|..];
      assert Split(f, TitleSeparator) == [f[..i]] + Split(rest, TitleSeparator);
      assert Split(rest, TitleSeparator)[0] == if Contains(rest, TitleSeparator) then rest[..IndexOf(rest, TitleSeparator)] else rest;
    }
  }

  /** The document built for the item at `index`. */
  function MakeDocument(item: string, index: nat): (d: DocumentIndexer.Document)
    ensures d.id == "fonte-" + NatToString(index)
    ensures d.docType == Classify(StripQuotes(item))
    ensures (d.title, d.source) == TitleAndSource(StripQuotes(item))
    ensures d.content == ContentPrefix + StripQuotes(item) + ContentSuffix
    ensures d.url == "" && d.date == ""
  {
    var fonte := StripQuotes(item);
    var (title, source) := TitleAndSource(fonte);
    DocumentIndexer.Document("fonte-" + NatToString(index), title, ContentPrefix + fonte + ContentSuffix,
                             source, "", "", Classify(fonte))
  }

  /** The `documents` built from the text of `fontes.py`, or the format error when the list is not
      found. */
  function ParseFontes(content: string): (r: Outcome<seq<DocumentIndexer.Document>>)
    ensures ListBody(content).None? <==> r == Err(FormatError)
    ensures ListBody(content).Some? ==>
              var items := Items(ListBody(content).value);
              r.Ok? && |r.value| == |items|
              && forall i :: 0 <= i < |items| ==> r.value[i] == MakeDocument(items[i], i)
  {
    match ListBody(content)
    case None => Err(FormatError)
    case Some(body) =>
      var items := Items(body);
      Ok(seq(|items|, i requires 0 <= i < |items| => MakeDocument(items[i], i)))
  }

  /** The ids are `fonte-<position>`, so no two documents share one. */
  lemma DocumentIdsUnique(content: string, i: nat, j: nat)
    requires ParseFontes(content).Ok? && i < j < |ParseFontes(content).value|
    ensures ParseFontes(content).value[i].id != ParseFontes(content).value[j].id
  {
    var docs := ParseFontes(content).value;
    if docs[i].id == docs[j].id {
      var p := "fonte-";
      assert (p + NatToString(i))[|p|..] == NatToString(i);
      assert (p + NatToString(j))[|p|..] == NatToString(j);
      NatToStringInjective(i, j);
    }
  }

  /** `sucessos` and `falhas`: the results reporting success and the others. */
  function Tally(results: seq<DocumentIndexer.IndexResult>): (r: (nat, nat))
  {
    if results == [] then (0, 0)
    else
      var (s, f) := Tally(results[1..]);
      if results[0].success then (s + 1, f) else (s, f + 1)
  }

  /** Every result is counted once: as a success or as a failure. */
  lemma {:induction false} TallyCountsAll(results: seq<DocumentIndexer.IndexResult>)
    ensures Tally(results).0 + Tally(results).1 == |results|
    ensures Tally(results).1 == 0 <==> forall k :: 0 <= k < |results| ==> results[k].success
  {
    if results != [] {
      TallyCountsAll(results[1..]);
      assert forall k :: 1 <= k < |results| ==> results[1..][k - 1] == results[k];
    }
  }
}
