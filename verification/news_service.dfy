/** services/newsService.js: the daily news. Headlines are scraped from five news sites, one is
    picked (avoiding recently sent titles, with a language model's help), formatted with its article
    text or a generated summary, and stored; when nothing can be scraped a language model writes the
    news instead. The latest news is then sent to every active user who did not opt out. The web
    pages, the language model's replies, the store's reads and the message sends are inputs. */
module NewsService {
  import opened Results
  import opened JsStrings
  import opened FirebaseService
  import opened ChatController

  // ---------------------------------------------------------------------------------------------
  // Headlines

  /** A news site: its name, its page, and the origin (scheme and host) of that page. */
  datatype NewsSource = NewsSource(name: string, url: string, origin: string)

  const NewsSources: seq<NewsSource> := [
    NewsSource("Jerusalem Post", "https://www.jpost.com/", "https://www.jpost.com"),
    NewsSource("Times of Israel", "https://www.timesofisrael.com/", "https://www.timesofisrael.com"),
    NewsSource("Israel Hayom", "https://www.israelhayom.com/headlines/", "https://www.israelhayom.com"),
    NewsSource("Arutz Sheva", "https://www.israelnationalnews.com/", "https://www.israelnationalnews.com"),
    NewsSource("Ynet News", "https://www.ynetnews.com/category/3082", "https://www.ynetnews.com")
  ]

  datatype Headline = Headline(title: string, source: string, url: string, timestamp: string)

  /** What was read from a site's page: the text of its first headline element and the link found
      inside or around it ("" when there is none). */
  datatype Scraped = Scraped(text: string, href: string)

  /** A link made absolute: an empty link or one starting with "http" is kept; any other is put after
      the site's origin, with a "/" in between unless it already starts with one. */
  function NormalizeLink(origin: string, link: string): (r: string)
    ensures link == "" || StartsWith(link, "http") ==> r == link
    ensures link != "" && !StartsWith(link, "http") ==> StartsWith(r, origin + "/")
  {
    if link != "" && !StartsWith(link, "http") then
      origin + (if StartsWith(link, "/") then "" else "/") + link
    else link
  }

  /** A relative link ends up as the origin, one "/", and the link without its own leading "/". */
  lemma NormalizeLinkJoinsOnce(origin: string, link: string)
    requires link != "" && !StartsWith(link, "http")
    ensures NormalizeLink(origin, link) == origin + "/" + (if StartsWith(link, "/") then link[1..] else link)
  {
    if StartsWith(link, "/") {
      assert link == "/" + link[1..];
      assert origin + "" + link == origin + "/" + link[1..];
    }
  }

  /** With an origin that starts with "http", normalising twice is normalising once. */
  lemma NormalizeLinkIdempotent(origin: string, link: string)
    requires StartsWith(origin, "http")
    ensures NormalizeLink(origin, NormalizeLink(origin, link)) == NormalizeLink(origin, link)
  {
    var r := NormalizeLink(origin, link);
    if link != "" && !StartsWith(link, "http") {
      assert r[..4] == origin[..4] == "http";
    }
  }

  /** The headline one site contributes: none when its page failed or its headline text is blank;
      otherwise the trimmed text, the site's name and the normalised link. */
  function HeadlineFrom(src: NewsSource, page: Outcome<Scraped>, now: string): (r: Option<Headline>)
    ensures r.Some? <==> page.Ok? && Trim(page.value.text) != ""
    ensures r.Some? ==> r.value.title != "" && IsTrimmed(r.value.title) && r.value.source == src.name
                        && r.value.url == NormalizeLink(src.origin, page.value.href)
  {
    match page
    case Err(_) => None
    case Ok(scraped) =>
      var headline := Trim(scraped.text);
      if headline != "" then Some(Headline(headline, src.name, NormalizeLink(src.origin, scraped.href), now))
      else None
  }

  /** The headlines of the sites, in the sites' order. */
  function Collected(sources: seq<NewsSource>, pages: seq<Outcome<Scraped>>, now: string): seq<Headline>
    requires |pages| == |sources|
  {
    if sources == [] then []
    else
      var n := |sources| - 1;
      var before := Collected(sources[..n], pages[..n], now);
      match HeadlineFrom(sources[n], pages[n], now)
      case Some(h) => before + [h]
      case None => before
  }

  /** `fetchTopHeadlines`: `pages[i]` is what was read from `sources[i]` (an error when the request
      or the parsing failed). A failing site is skipped and the others are still read. */
  method FetchTopHeadlines(sources: seq<NewsSource>, pages: seq<Outcome<Scraped>>, now: string)
    returns (headlines: seq<Headline>)
    requires |pages| == |sources|
    ensures headlines == Collected(sources, pages, now)
  {
    headlines := [];
    for i := 0 to |sources|
      invariant headlines == Collected(sources[..i], pages[..i], now)
    {
      CollectedStep(sources, pages, now, i);
      match pages[i]
      case Err(_) =>
      case Ok(scraped) =>
        var headline := Trim(scraped.text);
        var link := NormalizeLink(sources[i].origin, scraped.href);
        if headline != "" {
          headlines := headlines + [Headline(headline, sources[i].name, link, now)];
        }
    }
    assert sources[..|sources|] == sources;
    assert pages[..|pages|] == pages;
  }

  /** One more site adds its headline, when it has one, to those of the sites before it. */
  lemma CollectedStep(sources: seq<NewsSource>, pages: seq<Outcome<Scraped>>, now: string, i: nat)
    requires |pages| == |sources| && i < |sources|
    ensures Collected(sources[..i + 1], pages[..i + 1], now) ==
            Collected(sources[..i], pages[..i], now) + (match HeadlineFrom(sources[i], pages[i], now) case Some(h) => [h] case None => [])
  {
    assert sources[..i + 1][..i] == sources[..i];
    assert pages[..i + 1][..i] == pages[..i];
  }

  /** Which sites contribute a headline. */
  function Contributes(sources: seq<NewsSource>, pages: seq<Outcome<Scraped>>, now: string): (c: seq<bool>)
    requires |pages| == |sources|
    ensures |c| == |sources| && forall j :: 0 <= j < |c| ==> c[j] == HeadlineFrom(sources[j], pages[j], now).Some?
  {
    seq(|sources|, j requires 0 <= j < |sources| => HeadlineFrom(sources[j], pages[j], now).Some?)
  }

  /** The sites before `n` contribute as they do among all the sites. */
  lemma ContributesPrefix(sources: seq<NewsSource>, pages: seq<Outcome<Scraped>>, now: string, n: nat)
    requires |pages| == |sources| && n <= |sources|
    ensures Contributes(sources[..n], pages[..n], now) == Contributes(sources, pages, now)[..n]
  {
    var c, c0 := Contributes(sources, pages, now), Contributes(sources[..n], pages[..n], now);
    forall j | 0 <= j < n ensures c0[j] == c[j] {
      assert sources[..n][j] == sources[j] && pages[..n][j] == pages[j];
    }
  }

  /** The positions holding true, in increasing order. */
  function Positions(flags: seq<bool>): seq<nat> {
    if flags == [] then []
    else
      var n := |flags| - 1;
      Positions(flags[..n]) + (if flags[n] then [n] else [])
  }

  /** The positions of the sites that contribute a headline, in increasing order. */
  function Contributors(sources: seq<NewsSource>, pages: seq<Outcome<Scraped>>, now: string): seq<nat>
    requires |pages| == |sources|
  {
    Positions(Contributes(sources, pages, now))
  }

  /** Every position listed holds true. */
  lemma {:induction false} PositionsInRange(flags: seq<bool>)
    ensures |Positions(flags)| <= |flags|
    ensures forall k :: 0 <= k < |Positions(flags)| ==> Positions(flags)[k] < |flags| && flags[Positions(flags)[k]]
  {
    if flags != [] {
      var n := |flags| - 1;
      PositionsInRange(flags[..n]);
      var pos0 := Positions(flags[..n]);
      assert forall k :: 0 <= k < |pos0| ==> Positions(flags)[k] == pos0[k] && flags[..n][pos0[k]] == flags[pos0[k]];
    }
  }

  /** The positions are listed in increasing order. */
  lemma {:induction false} PositionsIncrease(flags: seq<bool>)
    ensures forall k, l :: 0 <= k < l < |Positions(flags)| ==> Positions(flags)[k] < Positions(flags)[l]
  {
    if flags != [] {
      var n := |flags| - 1;
      PositionsIncrease(flags[..n]);
      PositionsInRange(flags[..n]);
      var pos0 := Positions(flags[..n]);
      assert forall k :: 0 <= k < |pos0| ==> Positions(flags)[k] == pos0[k] < n;
    }
  }

  /** Every position holding true is listed. */
  lemma {:induction false} PositionsComplete(flags: seq<bool>)
    ensures forall j :: 0 <= j < |flags| && flags[j] ==> j in Positions(flags)
  {
    if flags != [] {
      var n := |flags| - 1;
      PositionsComplete(flags[..n]);
      forall j | 0 <= j < n && flags[j] ensures j in Positions(flags) {
        assert flags[..n][j] == flags[j];
        assert j in Positions(flags[..n]);
      }
    }
  }

  /** The contributing positions: in range, increasing, and none missing. */
  lemma ContributorsFacts(sources: seq<NewsSource>, pages: seq<Outcome<Scraped>>, now: string)
    requires |pages| == |sources|
    ensures forall k :: 0 <= k < |Contributors(sources, pages, now)| ==>
              Contributors(sources, pages, now)[k] < |sources|
    ensures forall k, l :: 0 <= k < l < |Contributors(sources, pages, now)| ==>
              Contributors(sources, pages, now)[k] < Contributors(sources, pages, now)[l]
    ensures forall j :: 0 <= j < |sources| && HeadlineFrom(sources[j], pages[j], now).Some? ==>
              j in Contributors(sources, pages, now)
  {
    var c := Contributes(sources, pages, now);
    PositionsInRange(c);
    PositionsIncrease(c);
    PositionsComplete(c);
  }

  /** The headlines are exactly those of the contributing sites, in the sites' order: at most one per
      site, each with a non-blank trimmed title. */
  lemma CollectedAreTheContributions(sources: seq<NewsSource>, pages: seq<Outcome<Scraped>>, now: string)
    requires |pages| == |sources|
    ensures var hs, pos := Collected(sources, pages, now), Contributors(sources, pages, now);
      && |hs| == |pos| <= |sources|
      && (forall k :: 0 <= k < |pos| ==> pos[k] < |sources| && HeadlineFrom(sources[pos[k]], pages[pos[k]], now) == Some(hs[k]))
      && (forall k :: 0 <= k < |hs| ==> hs[k].title != "" && IsTrimmed(hs[k].title))
  {
    PositionsInRange(Contributes(sources, pages, now));
    CollectedMatchesContributors(sources, pages, now);
  }

  /** The `k`-th headline comes from the `k`-th contributing site. */
  lemma CollectedMatchesContributors(sources: seq<NewsSource>, pages: seq<Outcome<Scraped>>, now: string)
    requires |pages| == |sources|
    ensures var hs, pos := Collected(sources, pages, now), Contributors(sources, pages, now);
      && |hs| == |pos|
      && forall k :: 0 <= k < |pos| ==> pos[k] < |sources| && HeadlineFrom(sources[pos[k]], pages[pos[k]], now) == Some(hs[k])
  {
    CollectedIsSomes(sources, pages, now);
    SomesAtPositions(Offered(sources, pages, now), Contributes(sources, pages, now));
  }

  /** The headline each site offers, if any. */
  function Offered(sources: seq<NewsSource>, pages: seq<Outcome<Scraped>>, now: string): (o: seq<Option<Headline>>)
    requires |pages| == |sources|
    ensures |o| == |sources| && forall j :: 0 <= j < |o| ==> o[j] == HeadlineFrom(sources[j], pages[j], now)
  {
    seq(|sources|, j requires 0 <= j < |sources| => HeadlineFrom(sources[j], pages[j], now))
  }

  lemma OfferedPrefix(sources: seq<NewsSource>, pages: seq<Outcome<Scraped>>, now: string, n: nat)
    requires |pages| == |sources| && n <= |sources|
    ensures Offered(sources[..n], pages[..n], now) == Offered(sources, pages, now)[..n]
  {
    var o, o0 := Offered(sources, pages, now), Offered(sources[..n], pages[..n], now);
    forall j | 0 <= j < n ensures o0[j] == o[j] {
      assert sources[..n][j] == sources[j] && pages[..n][j] == pages[j];
    }
  }

  /** The values present, in order. */
  function Somes<T>(xs: seq<Option<T>>): seq<T> {
    if xs == [] then []
    else
      var n := |xs| - 1;
      Somes(xs[..n]) + (if xs[n].Some? then [xs[n].value] else [])
  }

  /** The headlines collected are the headlines offered. */
  lemma {:induction false} CollectedIsSomes(sources: seq<NewsSource>, pages: seq<Outcome<Scraped>>, now: string)
    requires |pages| == |sources|
    ensures Collected(sources, pages, now) == Somes(Offered(sources, pages, now))
  {
    if sources != [] {
      var n := |sources| - 1;
      CollectedIsSomes(sources[..n], pages[..n], now);
      OfferedPrefix(sources, pages, now, n);
    }
  }

  /** The `k`-th value present stands at the `k`-th position flagged as present. */
  lemma {:induction false} SomesAtPositions<T>(xs: seq<Option<T>>, flags: seq<bool>)
    requires |flags| == |xs| && forall j :: 0 <= j < |xs| ==> flags[j] == xs[j].Some?
    ensures |Somes(xs)| == |Positions(flags)|
    ensures forall k :: 0 <= k < |Positions(flags)| ==> Positions(flags)[k] < |xs| && xs[Positions(flags)[k]] == Some(Somes(xs)[k])
  {
    if xs != [] {
      var n := |xs| - 1;
      SomesAtPositions(xs[..n], flags[..n]);
      var v0, pos0 := Somes(xs[..n]), Positions(flags[..n]);
      forall k | 0 <= k < |pos0|
        ensures Positions(flags)[k] == pos0[k] < n && Somes(xs)[k] == v0[k] && xs[pos0[k]] == Some(v0[k])
      {
        assert xs[..n][pos0[k]] == xs[pos0[k]];
      }
    }
  }

  // ---------------------------------------------------------------------------------------------
  // Choosing the headline

  predicate AllDigits(d: string) {
    forall k :: 0 <= k < |d| ==> IsDigit(d[k])
  }

  predicate NoDigit(s: string) {
    forall k :: 0 <= k < |s| ==> !IsDigit(s[k])
  }

  /** Whitespace holds no digit. */
  lemma SpacesHaveNoDigit(w: string)
    requires AllSpace(w)
    ensures NoDigit(w)
  {
    forall k | 0 <= k < |w| ensures !IsDigit(w[k]) {
      assert IsSpace(w[k]);
    }
  }

  /** The first position at or after `i` holding a digit, or `|s|`. */
  function FirstDigitFrom(s: string, i: nat): (r: nat)
    requires i <= |s|
    ensures i <= r <= |s| && (r < |s| ==> IsDigit(s[r]))
    ensures forall k :: i <= k < r ==> !IsDigit(s[k])
    decreases |s| - i
  {
    if i == |s| || IsDigit(s[i]) then i else FirstDigitFrom(s, i + 1)
  }

  /** The end of the run of digits starting at `i`. */
  function DigitRunEnd(s: string, i: nat): (r: nat)
    requires i <= |s|
    ensures i <= r <= |s| && (r < |s| ==> !IsDigit(s[r]))
    ensures forall k :: i <= k < r ==> IsDigit(s[k])
    decreases |s| - i
  {
    if i == |s| || !IsDigit(s[i]) then i else DigitRunEnd(s, i + 1)
  }

  /** `d` is what `/\d+/` matches in `s` at `i`: the leftmost digit, and every digit after it. */
  ghost predicate DigitRunAt(s: string, i: nat, d: string) {
    && |d| >= 1 && AllDigits(d) && OccursAt(s, d, i)
    && (forall k :: 0 <= k < i ==> !IsDigit(s[k]))
    && (i + |d| == |s| || !IsDigit(s[i + |d|]))
  }

  /** `s.match(/\d+/)[0]`; None when `s` has no digit (the code then fails on the missing match). */
  function FirstDigitRun(s: string): (r: Option<string>)
    ensures r.None? <==> NoDigit(s)
    ensures r.Some? ==> DigitRunAt(s, FirstDigitFrom(s, 0), r.value)
  {
    var i := FirstDigitFrom(s, 0);
    if i == |s| then None else Some(s[i..DigitRunEnd(s, i)])
  }

  /** The regular expression has one match: two matches are the same. */
  lemma DigitRunUnique(s: string, i: nat, d: string, j: nat, e: string)
    requires DigitRunAt(s, i, d) && DigitRunAt(s, j, e)
    ensures i == j && d == e
  {
    assert s[i] == d[0] && s[j] == e[0];
    assert i == j;
    assert forall k :: 0 <= k < |d| ==> s[i + k] == d[k];
    assert forall k :: 0 <= k < |e| ==> s[j + k] == e[k];
    assert |d| == |e|;
    assert d == s[i..i + |d|] == e;
  }

  /** Text without digits around a text does not move its digit run, it only shifts it. */
  lemma DigitRunAround(w1: string, t: string, w2: string, i: nat, d: string)
    requires NoDigit(w1) && NoDigit(w2) && DigitRunAt(t, i, d)
    ensures DigitRunAt(w1 + t + w2, |w1| + i, d)
  {
    var s := w1 + t + w2;
    var j := |w1| + i;
    assert s[j..j + |d|] == t[i..i + |d|];
    forall k | 0 <= k < j ensures !IsDigit(s[k]) {
      if k < |w1| { assert s[k] == w1[k]; } else { assert s[k] == t[k - |w1|]; }
    }
    if i + |d| < |t| {
      assert s[j + |d|] == t[i + |d|];
    } else if j + |d| < |s| {
      assert s[j + |d|] == w2[0];
    }
  }

  /** Text without digits around a text without digits adds none. */
  lemma NoDigitAround(w1: string, t: string, w2: string)
    requires NoDigit(w1) && NoDigit(t) && NoDigit(w2)
    ensures NoDigit(w1 + t + w2)
  {
    var s := w1 + t + w2;
    forall k | 0 <= k < |s| ensures !IsDigit(s[k]) {
      if k < |w1| {
        assert s[k] == w1[k];
      } else if k < |w1| + |t| {
        assert s[k] == t[k - |w1|];
      } else {
        assert s[k] == w2[k - |w1| - |t|];
      }
    }
  }

  /** Trimming the reply before the match changes nothing: whitespace is never a digit. */
  lemma FirstDigitRunTrim(s: string)
    ensures FirstDigitRun(Trim(s)) == FirstDigitRun(s)
  {
    var w1, w2 := TrimParts(s);
    SpacesHaveNoDigit(w1);
    SpacesHaveNoDigit(w2);
    FirstDigitRunAround(w1, Trim(s), w2);
  }

  lemma FirstDigitRunAround(w1: string, t: string, w2: string)
    requires NoDigit(w1) && NoDigit(w2)
    ensures FirstDigitRun(w1 + t + w2) == FirstDigitRun(t)
  {
    var s := w1 + t + w2;
    match FirstDigitRun(t)
    case None =>
      NoDigitAround(w1, t, w2);
    case Some(d) =>
      var i := FirstDigitFrom(t, 0);
      DigitRunAround(w1, t, w2, i, d);
      FirstDigitRunIs(s, |w1| + i, d);
  }

  /** A match of the expression is the first digit run. */
  lemma FirstDigitRunIs(s: string, i: nat, d: string)
    requires DigitRunAt(s, i, d)
    ensures FirstDigitRun(s) == Some(d)
  {
    assert IsDigit(s[i]) by { assert s[i] == d[0]; }
    DigitRunUnique(s, FirstDigitFrom(s, 0), FirstDigitRun(s).value, i, d);
  }

  /** `parseInt` of a run of decimal digits. */
  function DecimalValue(d: string): nat
    requires AllDigits(d)
  {
    if d == [] then 0 else DecimalValue(d[..|d| - 1]) * 10 + (d[|d| - 1] as int - '0' as int)
  }

  /** Reading back a number's decimal text gives the number. */
  lemma {:induction false} DecimalValueOfNatToString(n: nat)
    ensures DecimalValue(NatToString(n)) == n
    decreases n
  {
    var s := NatToString(n);
    if n >= 10 {
      assert s[..|s| - 1] == NatToString(n / 10);
      assert s[|s| - 1] == DigitChar(n % 10);
      DecimalValueOfNatToString(n / 10);
    }
  }

  /** The headlines whose title is not among the recent titles, in order. */
  function UniqueHeadlines(hs: seq<Headline>, recent: seq<string>): (r: seq<Headline>)
    ensures |r| <= |hs|
    ensures forall h :: h in r <==> h in hs && h.title !in recent
  {
    if hs == [] then []
    else
      var n := |hs| - 1;
      assert hs == hs[..n] + [hs[n]];
      UniqueHeadlines(hs[..n], recent) + (if hs[n].title in recent then [] else [hs[n]])
  }

  /** One more headline at the end adds itself to the fresh ones exactly when it was not sent. */
  lemma UniqueHeadlinesSnoc(hs: seq<Headline>, x: Headline, recent: seq<string>)
    ensures UniqueHeadlines(hs + [x], recent) == UniqueHeadlines(hs, recent) + (if x.title in recent then [] else [x])
  {
    assert (hs + [x])[..|hs|] == hs;
  }

  /** The filter keeps the order of the headlines: filtering a concatenation is concatenating the
      filtered parts, so the n-th fresh headline is the n-th headline that was not sent recently. */
  lemma {:induction false} UniqueHeadlinesAppend(a: seq<Headline>, b: seq<Headline>, recent: seq<string>)
    ensures UniqueHeadlines(a + b, recent) == UniqueHeadlines(a, recent) + UniqueHeadlines(b, recent)
    decreases |b|
  {
    if b == [] {
      assert a + b == a;
    } else {
      var n := |b| - 1;
      var x := b[n];
      assert b == b[..n] + [x];
      assert a + b == (a + b[..n]) + [x];
      UniqueHeadlinesSnoc(a + b[..n], x, recent);
      UniqueHeadlinesSnoc(b[..n], x, recent);
      UniqueHeadlinesAppend(a, b[..n], recent);
    }
  }

  /** The pick among the fresh headlines: the one whose 1-based number is the first number in the
      model's trimmed reply, or the first one when the reply failed, holds no number, or names a
      number out of range. */
  function Selection(unique: seq<Headline>, reply: Outcome<string>): (r: Headline)
    requires unique != []
    ensures r in unique
    ensures reply.Err? || FirstDigitRun(Trim(reply.value)).None? ==> r == unique[0]
  {
    match reply
    case Err(_) => unique[0]
    case Ok(text) =>
      match FirstDigitRun(Trim(text))
      case None => unique[0]
      case Some(d) =>
        var n := DecimalValue(d);
        if 1 <= n <= |unique| then unique[n - 1] else unique[0]
  }

  /** A reply naming `k` (after any text without digits, and not followed by another digit) picks the
      k-th fresh headline when there is one, and the first otherwise. */
  lemma ReplyNumberSelects(unique: seq<Headline>, before: string, k: nat, after: string)
    requires unique != []
    requires NoDigit(before)
    requires after == [] || !IsDigit(after[0])
    ensures Selection(unique, Ok(before + NatToString(k) + after)) ==
            if 1 <= k <= |unique| then unique[k - 1] else unique[0]
  {
    ReplyRunIsTheNumber(before, k, after);
    SelectionReadsTheRun(unique, before + NatToString(k) + after, NatToString(k));
    DecimalValueOfNatToString(k);
  }

  /** The first number of such a reply, once trimmed, is the decimal text of `k`. */
  lemma ReplyRunIsTheNumber(before: string, k: nat, after: string)
    requires NoDigit(before)
    requires after == [] || !IsDigit(after[0])
    ensures FirstDigitRun(Trim(before + NatToString(k) + after)) == Some(NatToString(k))
  {
    var s := before + NatToString(k) + after;
    FirstDigitRunTrim(s);
    NumberIsTheDigitRun(before, k, after);
    FirstDigitRunIs(s, |before|, NatToString(k));
  }

  lemma SelectionReadsTheRun(unique: seq<Headline>, text: string, d: string)
    requires unique != [] && FirstDigitRun(Trim(text)) == Some(d)
    ensures AllDigits(d)
    ensures Selection(unique, Ok(text)) == if 1 <= DecimalValue(d) <= |unique| then unique[DecimalValue(d) - 1] else unique[0]
  {
  }

  /** A number written after text without digits, and not followed by a digit, is a match. */
  lemma NumberIsTheDigitRun(before: string, k: nat, after: string)
    requires NoDigit(before)
    requires after == [] || !IsDigit(after[0])
    ensures DigitRunAt(before + NatToString(k) + after, |before|, NatToString(k))
  {
    var d := NatToString(k);
    var s := before + d + after;
    assert s[|before|..|before| + |d|] == d;
    assert forall i :: 0 <= i < |before| ==> s[i] == before[i];
    assert |before| + |d| == |s| || s[|before| + |d|] == after[0];
  }

  /** `selectBestHeadline`: `recentTitles` is the outcome of reading the titles of the last news
      sent, and `reply` the language model's answer. No headline gives none; a single one is taken
      without reading the history; a failed history read is an error (it is not caught). With
      several headlines, a fresh one is preferred: only when every headline was recently sent is
      the first one taken again. */
  function SelectBestHeadline(headlines: seq<Headline>, recentTitles: Outcome<seq<string>>, reply: Outcome<string>)
    : (r: Outcome<Option<Headline>>)
    ensures |headlines| == 0 ==> r == Ok(None)
    ensures |headlines| == 1 ==> r == Ok(Some(headlines[0]))
    ensures r.Err? <==> |headlines| >= 2 && recentTitles.Err?
    ensures r.Ok? && headlines != [] ==> r.value.Some? && r.value.value in headlines
    ensures |headlines| >= 2 && recentTitles.Ok? && (forall h :: h in headlines ==> h.title in recentTitles.value) ==>
              r == Ok(Some(headlines[0]))
    ensures |headlines| >= 2 && recentTitles.Ok? && (exists h :: h in headlines && h.title !in recentTitles.value) ==>
              && r == Ok(Some(Selection(UniqueHeadlines(headlines, recentTitles.value), reply)))
              && r.value.value.title !in recentTitles.value
  {
    if |headlines| == 0 then Ok(None)
    else if |headlines| == 1 then Ok(Some(headlines[0]))
    else
      match recentTitles
      case Err(m) => Err(m)
      case Ok(recent) =>
        var unique := UniqueHeadlines(headlines, recent);
        if unique == [] then Ok(Some(headlines[0]))
        else Ok(Some(Selection(unique, reply)))
  }

  // ---------------------------------------------------------------------------------------------
  // The text of the news

  const SummaryUnavailable := "Detalhes desta notícia não estão disponíveis no momento."
  const NoLinkText := "Fonte indisponível"
  const DefaultTitle := "Notícia do dia"
  const Newspaper: char := '\U{1F4F0}'

  /** `generateNewsSummary`: the model's trimmed reply, or a fixed sentence when the request fails. */
  function NewsSummary(reply: Outcome<string>): (r: string)
    ensures reply.Ok? ==> r == Trim(reply.value)
    ensures reply.Err? ==> r == SummaryUnavailable
  {
    match reply
    case Ok(text) => Trim(text)
    case Err(_) => SummaryUnavailable
  }

  /** The body of the news: the article's text when the headline has a link and the article could
      be read, the generated summary otherwise. */
  function NewsBody(h: Headline, article: Outcome<string>, summary: Outcome<string>): (r: string)
    ensures h.url != "" && article.Ok? ==> r == article.value
    ensures h.url == "" || article.Err? ==> r == NewsSummary(summary)
  {
    if h.url != "" && article.Ok? then article.value else NewsSummary(summary)
  }

  /** What follows "Leia mais": the headline's link, or a fixed text when it has none. */
  function LinkShown(h: Headline): (r: string)
    ensures r != ""
    ensures h.url != "" ==> r == h.url
  {
    if h.url != "" then h.url else NoLinkText
  }

  /** The message of a scraped headline: a first line "📰 <title>", a blank line, the body, a blank
      line, the "Leia mais" line with the link, and the source on the last line. */
  function DailyNewsText(h: Headline, body: string): (r: string)
    ensures StartsWith(r, [Newspaper, ' '] + h.title + "\n\n" + body + "\n\n")
    ensures OccursAt(r, "🔗 Leia mais: " + LinkShown(h) + "\nFonte: " + h.source,
                     |r| - |"🔗 Leia mais: " + LinkShown(h) + "\nFonte: " + h.source|)
  {
    [Newspaper, ' '] + h.title + "\n\n" + body + "\n\n" + "🔗 Leia mais: " + LinkShown(h) + "\n" + "Fonte: " + h.source
  }

  // The title of a generated news: `/^📰\s*(.+?)$/m`

  predicate LineStart(s: string, p: nat) {
    p == 0 || (p <= |s| && IsLineTerminator(s[p - 1]))
  }

  /** The end of the line that position `q` is on. */
  function LineEnd(s: string, q: nat): (e: nat)
    requires q <= |s|
    ensures q <= e <= |s| && (e < |s| ==> IsLineTerminator(s[e]))
    ensures forall k :: q <= k < e ==> !IsLineTerminator(s[k])
    decreases |s| - q
  {
    if q == |s| || IsLineTerminator(s[q]) then q else LineEnd(s, q + 1)
  }

  /** `.` can match at `i`: there is a character and it is not a line terminator. */
  predicate OpensTitle(s: string, i: nat) {
    i < |s| && !IsLineTerminator(s[i])
  }

  /** `\s*` gives back whitespace until `.` can match: the last position from `q0` to `last` where
      it can. */
  function LastTitleStart(s: string, q0: nat, last: nat): (r: Option<nat>)
    requires q0 <= last
    ensures r.Some? ==> q0 <= r.value <= last && OpensTitle(s, r.value)
    ensures forall i :: (if r.Some? then r.value < i else q0 <= i) && i <= last ==> !OpensTitle(s, i)
    decreases last
  {
    if OpensTitle(s, last) then Some(last)
    else if last == q0 then None
    else LastTitleStart(s, q0, last - 1)
  }

  /** A match of the expression at `p`: the emoji at the start of a line, whitespace `w`, then `g`,
      one or more characters that are not line terminators, up to the end of a line. */
  ghost predicate TitleLineAt(s: string, p: nat, w: string, g: string) {
    && p < |s| && LineStart(s, p) && s[p] == Newspaper
    && AllSpace(w) && OccursAt(s, w, p + 1)
    && |g| >= 1 && OccursAt(s, g, p + 1 + |w|)
    && (forall k :: 0 <= k < |g| ==> !IsLineTerminator(g[k]))
    && (p + 1 + |w| + |g| == |s| || IsLineTerminator(s[p + 1 + |w| + |g|]))
  }

  /** Where the group of a match at `p` starts, if the expression matches there: the emoji at the
      start of a line, then the last position within the whitespace run after it where `.` can match. */
  function TitleStart(s: string, p: nat): (r: Option<nat>)
    requires p <= |s|
    ensures r.Some? ==> && p < |s| && LineStart(s, p) && s[p] == Newspaper
                        && p + 1 <= r.value <= p + 1 + LeadingSpaces(s[p + 1..]) && OpensTitle(s, r.value)
                        && forall i :: r.value < i <= p + 1 + LeadingSpaces(s[p + 1..]) ==> !OpensTitle(s, i)
  {
    if p < |s| && LineStart(s, p) && s[p] == Newspaper then
      LastTitleStart(s, p + 1, p + 1 + LeadingSpaces(s[p + 1..]))
    else None
  }

  /** The group captured by a match at `p`, if the expression matches there. */
  function TitleAt(s: string, p: nat): Option<string>
    requires p <= |s|
  {
    match TitleStart(s, p)
    case None => None
    case Some(q) => Some(s[q..LineEnd(s, q)])
  }

  /** In any match at `p`, the whitespace is within the whitespace run after the emoji and `.` can
      match right after it. */
  lemma TitleLineBounds(s: string, p: nat, w: string, g: string)
    requires TitleLineAt(s, p, w, g)
    ensures |w| <= LeadingSpaces(s[p + 1..]) && OpensTitle(s, p + 1 + |w|)
  {
    var x := s[p + 1..];
    assert x[..|w|] == w;
    SpacesWithinLeading(x, w);
    assert s[p + 1 + |w|] == g[0];
  }

  /** What `TitleAt` captures is a match at `p`, with the longest whitespace of all matches there:
      the greedy `\s*` of the expression. */
  lemma TitleAtSound(s: string, p: nat) returns (w: string)
    requires p <= |s| && TitleAt(s, p).Some?
    ensures TitleLineAt(s, p, w, TitleAt(s, p).value)
    ensures forall w', g' :: TitleLineAt(s, p, w', g') ==> |w'| <= |w|
  {
    w := TitleAtMatch(s, p);
    forall w', g' | TitleLineAt(s, p, w', g') ensures |w'| <= |w| {
      TitleLineBounds(s, p, w', g');
    }
  }

  /** The whitespace and the group `TitleAt` takes form a match; the group starts at `TitleStart`. */
  lemma TitleAtMatch(s: string, p: nat) returns (w: string)
    requires p <= |s| && TitleAt(s, p).Some?
    ensures TitleLineAt(s, p, w, TitleAt(s, p).value)
    ensures p + 1 + |w| == TitleStart(s, p).value
  {
    var q := TitleStart(s, p).value;
    w := s[p + 1..q];
    LeadingRunPrefix(s, p + 1, q);
    TitleLineThrough(s, p, w, q);
  }

  /** Whitespace from after the emoji up to a position where `.` can match, then the rest of that
      line, form a match. */
  lemma TitleLineThrough(s: string, p: nat, w: string, q: nat)
    requires p < |s| && LineStart(s, p) && s[p] == Newspaper
    requires p + 1 <= q <= |s| && w == s[p + 1..q] && AllSpace(w) && OpensTitle(s, q)
    ensures TitleLineAt(s, p, w, s[q..LineEnd(s, q)])
  {
    LineFrom(s, q);
  }

  /** From a position where `.` can match, the rest of the line is a non-empty run of characters
      that are not line terminators. */
  lemma LineFrom(s: string, q: nat)
    requires OpensTitle(s, q)
    ensures var g := s[q..LineEnd(s, q)];
      |g| >= 1 && forall k :: 0 <= k < |g| ==> !IsLineTerminator(g[k])
  {
    var e := LineEnd(s, q);
    assert forall k :: 0 <= k < e - q ==> s[q..e][k] == s[q + k];
  }

  /** Where the expression matches, `TitleAt` finds something. */
  lemma TitleAtComplete(s: string, p: nat, w: string, g: string)
    requires TitleLineAt(s, p, w, g)
    ensures TitleAt(s, p).Some?
  {
    TitleLineBounds(s, p, w, g);
  }

  function TitleSearch(s: string, p: nat): Option<string>
    requires p <= |s|
    decreases |s| - p
  {
    if TitleAt(s, p).Some? then TitleAt(s, p)
    else if p == |s| then None
    else TitleSearch(s, p + 1)
  }

  lemma {:induction false} TitleSearchIsLeftmost(s: string, p: nat)
    requires p <= |s|
    requires forall i: nat, w, g :: i < p ==> !TitleLineAt(s, i, w, g)
    ensures TitleSearch(s, p).Some? ==>
              exists i: nat, w :: && TitleLineAt(s, i, w, TitleSearch(s, p).value)
                                  && (forall w', g' :: TitleLineAt(s, i, w', g') ==> |w'| <= |w|)
                                  && (forall j: nat, w', g' :: j < i ==> !TitleLineAt(s, j, w', g'))
    ensures TitleSearch(s, p).None? ==> forall i: nat, w, g :: !TitleLineAt(s, i, w, g)
    decreases |s| - p
  {
    if TitleAt(s, p).Some? {
      var w := TitleAtSound(s, p);
    } else {
      forall w, g ensures !TitleLineAt(s, p, w, g) {
        if TitleLineAt(s, p, w, g) { TitleAtComplete(s, p, w, g); }
      }
      if p < |s| {
        TitleSearchIsLeftmost(s, p + 1);
      } else {
        forall i: nat, w, g | p < i ensures !TitleLineAt(s, i, w, g) { }
      }
    }
  }

  /** The title given to a generated news when it is stored: the trimmed group of the first match,
      or a default title when the expression matches nowhere. */
  function AITitle(content: string): string {
    match TitleSearch(content, 0)
    case Some(g) => Trim(g)
    case None => DefaultTitle
  }

  /** `AITitle` is the regular expression: the trimmed group of its leftmost match, with the
      longest leading whitespace at that position; the default exactly when nothing matches. */
  lemma AITitleIsTheFirstTitleLine(content: string)
    ensures (forall i: nat, w, g :: !TitleLineAt(content, i, w, g)) <==> AITitle(content) == DefaultTitle && TitleSearch(content, 0).None?
    ensures TitleSearch(content, 0).Some? ==>
              exists i: nat, w, g :: && TitleLineAt(content, i, w, g) && AITitle(content) == Trim(g)
                                     && (forall w', g' :: TitleLineAt(content, i, w', g') ==> |w'| <= |w|)
                                     && (forall j: nat, w', g' :: j < i ==> !TitleLineAt(content, j, w', g'))
  {
    TitleSearchIsLeftmost(content, 0);
    if TitleSearch(content, 0).Some? {
      var g := TitleSearch(content, 0).value;
      var i: nat, w :| && TitleLineAt(content, i, w, g)
                       && (forall w', g' :: TitleLineAt(content, i, w', g') ==> |w'| <= |w|)
                       && (forall j: nat, w', g' :: j < i ==> !TitleLineAt(content, j, w', g'));
    }
  }

  /** The end of the line at `q` is the first line terminator from `q` on. */
  lemma LineEndIs(s: string, q: nat, e: nat)
    requires q <= e <= |s| && (e == |s| || IsLineTerminator(s[e]))
    requires forall k :: q <= k < e ==> !IsLineTerminator(s[k])
    ensures LineEnd(s, q) == e
  {
    var e' := LineEnd(s, q);
    assert e' < |s| ==> IsLineTerminator(s[e']);
  }

  /** The first characters of a text that starts with `[a, b] + t + d`, `d` not empty. */
  lemma FirstLineOf<T>(s: seq<T>, a: T, b: T, t: seq<T>, d: seq<T>, r1: seq<T>, r2: seq<T>)
    requires d != []
    requires var P := [a, b] + t + d + r1 + r2; |P| <= |s| && s[..|P|] == P
    ensures |s| > 2 + |t| && s[0] == a && s[1] == b && s[2..2 + |t|] == t && s[2 + |t|] == d[0]
  {
    var P := [a, b] + t + d + r1 + r2;
    assert forall k :: 0 <= k < |P| ==> s[k] == P[k] by {
      forall k | 0 <= k < |P| ensures s[k] == P[k] { assert s[..|P|][k] == s[k]; }
    }
    assert forall k :: 0 <= k < |t| ==> P[2 + k] == t[k];
    assert s[2..2 + |t|] == t;
    assert P[2 + |t|] == d[0];
  }

  /** The title of a scraped headline can be read back from its message with the expression used for
      generated news, when the title is on one line (it is always trimmed and non-blank). */
  lemma DailyNewsTitleReadsBack(h: Headline, body: string)
    requires h.title != "" && IsTrimmed(h.title)
    requires forall k :: 0 <= k < |h.title| ==> !IsLineTerminator(h.title[k])
    ensures AITitle(DailyNewsText(h, body)) == h.title
  {
    var t := h.title;
    var s := DailyNewsText(h, body);
    FirstLineOf(s, Newspaper, ' ', t, "\n\n", body, "\n\n");
    TitleOnFirstLine(s, t);
    assert [] + t + [] == t;
    TrimUnique([], t, []);
  }

  /** A text whose first line is the emoji, one space and `t` has `t` as its first title. */
  lemma TitleOnFirstLine(s: string, t: string)
    requires |s| > 2 + |t| && s[0] == Newspaper && s[1] == ' ' && s[2..2 + |t|] == t && s[2 + |t|] == '\n'
    requires t != "" && !IsSpace(t[0]) && forall k :: 0 <= k < |t| ==> !IsLineTerminator(t[k])
    ensures TitleSearch(s, 0) == Some(t)
  {
    var x := s[1..];
    assert x[..1] == " " && x[1] == t[0];
    LeadingSpacesBefore(x, " ");
    assert OpensTitle(s, 2);
    assert LastTitleStart(s, 1, 2) == Some(2);
    assert TitleStart(s, 0) == Some(2);
    assert forall k :: 2 <= k < 2 + |t| ==> s[k] == t[k - 2];
    LineEndIs(s, 2, 2 + |t|);
    assert TitleAt(s, 0) == Some(t);
  }

  // ---------------------------------------------------------------------------------------------
  // Producing the daily news

  /** The record handed to the `dailyNews` collection (its timestamp, delivery counter and
      reactions are left out). Storing never fails the caller: a failed write is only logged. */
  datatype NewsRecord = NewsRecord(content: string, title: string, url: string, source: string)

  /** The news produced (none when even the fallback failed) and the record stored with it. */
  datatype NewsRun = NewsRun(text: Option<string>, stored: Option<NewsRecord>)

  /** `generateAINews`: `reply` is the model's answer and `pick` the random index of the source
      named in the stored record. The trimmed answer is the news, stored with the title found in it;
      a failed request gives no news and stores nothing. */
  function GenerateAINews(reply: Outcome<string>, pick: nat): (r: NewsRun)
    requires pick < |NewsSources|
    ensures r.text.None? <==> reply.Err?
    ensures r.stored.Some? <==> r.text.Some?
    ensures r.text.Some? ==> && r.text.value == Trim(reply.value) && IsTrimmed(r.text.value)
                             && r.stored.value == NewsRecord(r.text.value, AITitle(r.text.value), "", NewsSources[pick].name)
  {
    match reply
    case Err(_) => NewsRun(None, None)
    case Ok(answer) =>
      var content := Trim(answer);
      NewsRun(Some(content), Some(NewsRecord(content, AITitle(content), "", NewsSources[pick].name)))
  }

  /** `generateDailyNews`, given the headlines scraped (see `FetchTopHeadlines`), the outcome of
      reading the recent titles, the model's pick, the article text, the model's summary, and the
      answer and random pick of the fallback. Without headlines, or when choosing one fails, the
      news is the generated one; otherwise it is the message of one of the scraped headlines,
      stored with that headline's title, link and source. */
  function GenerateDailyNews(headlines: seq<Headline>, recentTitles: Outcome<seq<string>>, pickReply: Outcome<string>,
                             article: Outcome<string>, summaryReply: Outcome<string>,
                             aiReply: Outcome<string>, aiPick: nat): (r: NewsRun)
    requires aiPick < |NewsSources|
    ensures headlines == [] || (|headlines| >= 2 && recentTitles.Err?) ==> r == GenerateAINews(aiReply, aiPick)
    ensures headlines != [] && (|headlines| == 1 || recentTitles.Ok?) ==>
              var h := SelectBestHeadline(headlines, recentTitles, pickReply).value.value;
              && h in headlines
              && r.text == Some(DailyNewsText(h, NewsBody(h, article, summaryReply)))
              && r.stored == Some(NewsRecord(r.text.value, h.title, h.url, h.source))
  {
    match SelectBestHeadline(headlines, recentTitles, pickReply)
    case Err(_) => GenerateAINews(aiReply, aiPick)
    case Ok(None) => GenerateAINews(aiReply, aiPick)
    case Ok(Some(h)) =>
      var content := DailyNewsText(h, NewsBody(h, article, summaryReply));
      NewsRun(Some(content), Some(NewsRecord(content, h.title, h.url, h.source)))
  }

  // ---------------------------------------------------------------------------------------------
  // Sending the news

  /** The Twilio address of a phone number: prefixed with "whatsapp:" unless it already is. */
  function WhatsappAddress(phone: string): (r: string)
    ensures StartsWith(r, "whatsapp:")
    ensures StartsWith(phone, "whatsapp:") ==> r == phone
  {
    if StartsWith(phone, "whatsapp:") then phone else "whatsapp:" + phone
  }

  /** The address keeps the number: it has the same digits, so the same settings document. */
  lemma WhatsappAddressKeepsKey(phone: string)
    ensures UserKey(WhatsappAddress(phone)) == UserKey(phone)
    ensures WhatsappAddress(WhatsappAddress(phone)) == WhatsappAddress(phone)
  {
    if !StartsWith(phone, "whatsapp:") {
      DigitsAppend("whatsapp:", phone);
      var p := "whatsapp:";
      assert Digits(p) == [] by {
        assert p[1..][1..][1..][1..][1..][1..][1..][1..][1..] == [];
      }
    }
  }

  /** Where the news goes for one active user, or None when the user is skipped: a phone without
      digits, a failed settings read (the error is caught and the loop goes on), or a settings
      document saying `receiveNews` is false. A user without settings receives the news. */
  function Recipient(phone: string, settings: map<string, Settings>, readFails: bool): (r: Option<string>)
    ensures r.None? <==> || UserKey(phone) == ""
                         || readFails
                         || (UserKey(phone) in settings && settings[UserKey(phone)].receiveNews == Some(false))
    ensures r.Some? ==> r.value == WhatsappAddress(phone)
  {
    var userId := Digits(phone);
    if userId == "" || readFails then None
    else if userId in settings && settings[userId].receiveNews == Some(false) then None
    else Some(WhatsappAddress(phone))
  }

  /** After a successful "/config noticias off" the user, under whatever formatting of the same
      number, is not sent the news; after "on" they are, unless their settings cannot be read. */
  lemma NewsCommandDecidesDelivery(records: map<string, Settings>, telefone: string, params: string, phone: string, readFails: bool)
    requires IsNewsCommand(params) && UserKey(phone) == UserKey(telefone) && UserKey(phone) != ""
    ensures var key := UserKey(telefone);
      var after := records[key := Merge(if key in records then records[key] else NoSettings, NewsPatch(ReceiveNewsRequested(params)))];
      && (!ReceiveNewsRequested(params) ==> Recipient(phone, after, readFails) == None)
      && (ReceiveNewsRequested(params) && !readFails ==> Recipient(phone, after, readFails) == Some(WhatsappAddress(phone)))
  {
  }

  datatype Message = Message(to: string, body: string)

  /** The messages sent to the users, in order. */
  function Messages(phones: seq<string>, settings: map<string, Settings>, readFails: seq<bool>, body: string): seq<Message>
    requires |readFails| == |phones|
  {
    if phones == [] then []
    else
      var n := |phones| - 1;
      Messages(phones[..n], settings, readFails[..n], body)
        + match Recipient(phones[n], settings, readFails[n]) { case Some(to) => [Message(to, body)] case None => [] }
  }

  /** The number of messages whose send succeeded. */
  function Delivered(phones: seq<string>, settings: map<string, Settings>, readFails: seq<bool>, sends: seq<Outcome<Unit>>): nat
    requires |readFails| == |phones| && |sends| == |phones|
  {
    if phones == [] then 0
    else
      var n := |phones| - 1;
      Delivered(phones[..n], settings, readFails[..n], sends[..n])
        + (if Recipient(phones[n], settings, readFails[n]).Some? && sends[n].Ok? then 1 else 0)
  }

  /** `sendNewsToAllUsers`: `latest` is the outcome of reading the latest news (None when there is
      none), `users` that of reading the phones of the active users, `readFails[i]` whether reading
      the i-th user's settings fails, `sends[i]` the outcome of sending to them, and
      `counterUpdate` that of adding the count to the news' delivery counter. Any failure outside
      the per-user steps ends with 0, even after messages went out. */
  method SendNewsToAllUsers(latest: Outcome<Option<string>>, users: Outcome<seq<string>>, settings: map<string, Settings>,
                            readFails: seq<bool>, sends: seq<Outcome<Unit>>, counterUpdate: Outcome<Unit>)
    returns (successCount: nat, sent: seq<Message>)
    requires users.Ok? ==> |readFails| == |users.value| && |sends| == |users.value|
    ensures latest.Err? || latest.value.None? || users.Err? ==> successCount == 0 && sent == []
    ensures latest.Ok? && latest.value.Some? && users.Ok? ==>
              && sent == Messages(users.value, settings, readFails, latest.value.value)
              && successCount == (if counterUpdate.Ok? then Delivered(users.value, settings, readFails, sends) else 0)
  {
    if latest.Err? || latest.value.None? || users.Err? {
      return 0, [];
    }
    var body := latest.value.value;
    var phones := users.value;
    successCount := 0;
    sent := [];
    for i := 0 to |phones|
      invariant sent == Messages(phones[..i], settings, readFails[..i], body)
      invariant successCount == Delivered(phones[..i], settings, readFails[..i], sends[..i])
    {
      SendStep(phones, settings, readFails, sends, body, i, sent, successCount);
      var userId := UserKey(phones[i]);
      if userId == "" || readFails[i] {
        continue;
      }
      if userId in settings && settings[userId].receiveNews == Some(false) {
        continue;
      }
      var to := WhatsappAddress(phones[i]);
      sent := sent + [Message(to, body)];
      if sends[i].Ok? {
        successCount := successCount + 1;
      }
    }
    assert phones[..|phones|] == phones;
    assert readFails[..|readFails|] == readFails;
    assert sends[..|sends|] == sends;
    if counterUpdate.Err? {
      successCount := 0;
    }
  }

  /** One user of the loop: the message to them, if any, is appended and counted when it went out. */
  lemma SendStep(phones: seq<string>, settings: map<string, Settings>, readFails: seq<bool>, sends: seq<Outcome<Unit>>,
                 body: string, i: nat, sent: seq<Message>, count: nat)
    requires |readFails| == |phones| && |sends| == |phones| && i < |phones|
    requires sent == Messages(phones[..i], settings, readFails[..i], body)
    requires count == Delivered(phones[..i], settings, readFails[..i], sends[..i])
    ensures var r := Recipient(phones[i], settings, readFails[i]);
      && (if r.Some? then sent + [Message(r.value, body)] else sent) == Messages(phones[..i + 1], settings, readFails[..i + 1], body)
      && (if r.Some? && sends[i].Ok? then count + 1 else count) == Delivered(phones[..i + 1], settings, readFails[..i + 1], sends[..i + 1])
  {
    assert phones[..i + 1][..i] == phones[..i];
    assert readFails[..i + 1][..i] == readFails[..i];
    assert sends[..i + 1][..i] == sends[..i];
  }

  /** Every message carries the news to a "whatsapp:" address; there is at most one per user, and
      only messages that went out count. */
  lemma {:induction false} MessagesBound(phones: seq<string>, settings: map<string, Settings>, readFails: seq<bool>,
                                         sends: seq<Outcome<Unit>>, body: string)
    requires |readFails| == |phones| && |sends| == |phones|
    ensures var ms := Messages(phones, settings, readFails, body);
      && Delivered(phones, settings, readFails, sends) <= |ms| <= |phones|
      && (forall m :: m in ms ==> m.body == body && StartsWith(m.to, "whatsapp:"))
  {
    if phones != [] {
      var n := |phones| - 1;
      MessagesBound(phones[..n], settings, readFails[..n], sends[..n], body);
    }
  }

  /** What is sent to each user, if anything. */
  function Outgoing(phones: seq<string>, settings: map<string, Settings>, readFails: seq<bool>, body: string): (o: seq<Option<Message>>)
    requires |readFails| == |phones|
    ensures |o| == |phones|
    ensures forall j :: 0 <= j < |o| ==>
              o[j] == if Recipient(phones[j], settings, readFails[j]).Some? then Some(Message(Recipient(phones[j], settings, readFails[j]).value, body)) else None
  {
    seq(|phones|, j requires 0 <= j < |phones| =>
      if Recipient(phones[j], settings, readFails[j]).Some? then Some(Message(Recipient(phones[j], settings, readFails[j]).value, body)) else None)
  }

  lemma OutgoingPrefix(phones: seq<string>, settings: map<string, Settings>, readFails: seq<bool>, body: string, n: nat)
    requires |readFails| == |phones| && n <= |phones|
    ensures Outgoing(phones[..n], settings, readFails[..n], body) == Outgoing(phones, settings, readFails, body)[..n]
  {
    var o, o0 := Outgoing(phones, settings, readFails, body), Outgoing(phones[..n], settings, readFails[..n], body);
    forall j | 0 <= j < n ensures o0[j] == o[j] {
      assert phones[..n][j] == phones[j] && readFails[..n][j] == readFails[j];
    }
  }

  /** The messages are what is sent to each user, in order. */
  lemma {:induction false} MessagesIsSomes(phones: seq<string>, settings: map<string, Settings>, readFails: seq<bool>, body: string)
    requires |readFails| == |phones|
    ensures Messages(phones, settings, readFails, body) == Somes(Outgoing(phones, settings, readFails, body))
  {
    if phones != [] {
      var n := |phones| - 1;
      MessagesIsSomes(phones[..n], settings, readFails[..n], body);
      OutgoingPrefix(phones, settings, readFails, body, n);
    }
  }

  /** A value is among those present exactly when some position holds it. */
  lemma {:induction false} SomesMembers<T>(xs: seq<Option<T>>, x: T)
    ensures x in Somes(xs) <==> exists j :: 0 <= j < |xs| && xs[j] == Some(x)
  {
    if xs != [] {
      var n := |xs| - 1;
      SomesMembers(xs[..n], x);
      if exists j :: 0 <= j < n && xs[..n][j] == Some(x) {
        var j :| 0 <= j < n && xs[..n][j] == Some(x);
        assert xs[j] == Some(x);
      }
      if exists j :: 0 <= j < |xs| && xs[j] == Some(x) {
        var j :| 0 <= j < |xs| && xs[j] == Some(x);
        if j < n { assert xs[..n][j] == Some(x); }
      }
    }
  }

  /** Every message goes to the address of a user who is a recipient. */
  lemma MessagesGoToRecipients(phones: seq<string>, settings: map<string, Settings>, readFails: seq<bool>, body: string)
    requires |readFails| == |phones|
    ensures forall m :: m in Messages(phones, settings, readFails, body) ==>
              exists i :: 0 <= i < |phones| && Recipient(phones[i], settings, readFails[i]) == Some(m.to)
  {
    MessagesIsSomes(phones, settings, readFails, body);
    var o := Outgoing(phones, settings, readFails, body);
    forall m | m in Messages(phones, settings, readFails, body)
      ensures exists i :: 0 <= i < |phones| && Recipient(phones[i], settings, readFails[i]) == Some(m.to)
    {
      SomesMembers(o, m);
      var i :| 0 <= i < |o| && o[i] == Some(m);
      assert Recipient(phones[i], settings, readFails[i]) == Some(m.to);
    }
  }

  /** Every recipient is sent the news. */
  lemma RecipientsGetTheNews(phones: seq<string>, settings: map<string, Settings>, readFails: seq<bool>, body: string)
    requires |readFails| == |phones|
    ensures forall i :: 0 <= i < |phones| && Recipient(phones[i], settings, readFails[i]).Some? ==>
              Message(Recipient(phones[i], settings, readFails[i]).value, body) in Messages(phones, settings, readFails, body)
  {
    MessagesIsSomes(phones, settings, readFails, body);
    var o := Outgoing(phones, settings, readFails, body);
    forall i | 0 <= i < |phones| && Recipient(phones[i], settings, readFails[i]).Some?
      ensures Message(Recipient(phones[i], settings, readFails[i]).value, body) in Messages(phones, settings, readFails, body)
    {
      SomesMembers(o, Message(Recipient(phones[i], settings, readFails[i]).value, body));
    }
  }
}
