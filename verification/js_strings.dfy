/** The JavaScript string operations and regular-expression character classes the core relies on,
    stated over strings as sequences of characters. */
module JsStrings {

  /** `\s` in a regular expression; the same set is what `String.prototype.trim` removes. */
  predicate IsSpace(c: char) {
    || c == '\t' || c == '\n' || c == '\U{B}' || c == '\U{C}' || c == '\r' || c == ' '
    || c == '\U{A0}' || c == '\U{1680}' || ('\U{2000}' <= c <= '\U{200A}')
    || c == '\U{2028}' || c == '\U{2029}' || c == '\U{202F}' || c == '\U{205F}'
    || c == '\U{3000}' || c == '\U{FEFF}'
  }

  /** A line terminator: what `.` does not match, and where `^` and `$` match in multiline mode. */
  predicate IsLineTerminator(c: char) {
    c == '\n' || c == '\r' || c == '\U{2028}' || c == '\U{2029}'
  }

  /** `\d` */
  predicate IsDigit(c: char) { '0' <= c <= '9' }

  /** `\w` (no `u` flag): ASCII letters, digits and underscore. */
  predicate IsWordChar(c: char) {
    ('a' <= c <= 'z') || ('A' <= c <= 'Z') || IsDigit(c) || c == '_'
  }

  predicate AllSpace(s: string) {
    forall k :: 0 <= k < |s| ==> IsSpace(s[k])
  }

  /** No leading and no trailing whitespace: the shape `trim` leaves. */
  predicate IsTrimmed(s: string) {
    s == [] || (!IsSpace(s[0]) && !IsSpace(s[|s| - 1]))
  }

  predicate OccursAt(s: string, t: string, i: int) {
    0 <= i && i + |t| <= |s| && s[i..i + |t|] == t
  }

  /** `s.includes(t)` */
  predicate Contains(s: string, t: string) {
    exists i | 0 <= i <= |s| - |t| :: OccursAt(s, t, i)
  }

  /** `s.startsWith(p)` */
  predicate StartsWith(s: string, p: string) {
    |p| <= |s| && s[..|p|] == p
  }

  /** `s.indexOf(t, from)`: the first occurrence of `t` at or after `from`, or -1. */
  function IndexFrom(s: string, t: string, from: nat): (r: int)
    decreases |s| - from
    ensures r == -1 || (from <= r && OccursAt(s, t, r))
    ensures forall i :: from <= i && (r == -1 || i < r) ==> !OccursAt(s, t, i)
  {
    if from + |t| > |s| then -1
    else if OccursAt(s, t, from) then from
    else IndexFrom(s, t, from + 1)
  }

  /** `s.indexOf(t)` */
  function IndexOf(s: string, t: string): (r: int)
    ensures r == -1 <==> !Contains(s, t)
    ensures r != -1 ==> OccursAt(s, t, r) && forall i :: 0 <= i < r ==> !OccursAt(s, t, i)
  {
    IndexFrom(s, t, 0)
  }

  /** `s.slice(0, n)` for a non-negative `n`: at most the first `n` characters. */
  function Take(s: string, n: nat): (r: string)
    ensures |r| <= n && StartsWith(s, r)
    ensures |s| <= n ==> r == s
    ensures n <= |s| ==> |r| == n
  {
    if n <= |s| then s[..n] else s
  }

  function LowerChar(c: char): char {
    if 'A' <= c <= 'Z' then (c as int + 32) as char else c
  }

  /** `s.toLowerCase()` for the ASCII letters. */
  function ToLower(s: string): (r: string)
    ensures |r| == |s| && forall i :: 0 <= i < |s| ==> r[i] == LowerChar(s[i])
  {
    seq(|s|, i requires 0 <= i < |s| => LowerChar(s[i]))
  }

  /** Length of the run of whitespace that starts `s`. */
  function LeadingSpaces(s: string): (n: nat)
    ensures n <= |s| && AllSpace(s[..n]) && (n < |s| ==> !IsSpace(s[n]))
  {
    if |s| > 0 && IsSpace(s[0]) then
      var m := LeadingSpaces(s[1..]);
      PrefixCons(s, m);
      AllSpaceAppend([s[0]], s[1..][..m]);
      m + 1
    else 0
  }

  lemma PrefixCons<T>(s: seq<T>, m: nat)
    requires m < |s|
    ensures s[..m + 1] == [s[0]] + s[1..][..m]
  {
  }

  lemma SuffixSnoc<T>(s: seq<T>, m: nat)
    requires m < |s|
    ensures s[|s| - (m + 1)..] == s[..|s| - 1][|s| - 1 - m..] + [s[|s| - 1]]
  {
  }

  /** A run of whitespace followed by a non-whitespace character is exactly what `\s*` takes. */
  lemma {:induction false} LeadingSpacesBefore(x: string, w: string)
    requires AllSpace(w) && |w| < |x| && x[..|w|] == w && !IsSpace(x[|w|])
    ensures LeadingSpaces(x) == |w|
  {
    if w != [] {
      assert x[0] == w[0];
      assert x[1..][..|w| - 1] == w[1..];
      LeadingSpacesBefore(x[1..], w[1..]);
    }
  }

  /** Any whitespace that starts `x` is within its leading whitespace. */
  lemma SpacesWithinLeading(x: string, w: string)
    requires AllSpace(w) && StartsWith(x, w)
    ensures |w| <= LeadingSpaces(x)
  {
    assert forall i :: 0 <= i < |w| ==> IsSpace(x[i]) by {
      assert forall i :: 0 <= i < |w| ==> x[i] == w[i];
    }
  }

  /** Length of the run of whitespace that ends `s`. */
  function TrailingSpaces(s: string): (n: nat)
    ensures n <= |s| && AllSpace(s[|s| - n..]) && (n < |s| ==> !IsSpace(s[|s| - 1 - n]))
  {
    if |s| > 0 && IsSpace(s[|s| - 1]) then
      var m := TrailingSpaces(s[..|s| - 1]);
      SuffixSnoc(s, m);
      AllSpaceAppend(s[..|s| - 1][|s| - 1 - m..], [s[|s| - 1]]);
      m + 1
    else 0
  }

  /** `s.trim()` */
  function Trim(s: string): (r: string)
    ensures |r| <= |s| && IsTrimmed(r)
  {
    var a := s[LeadingSpaces(s)..];
    a[..|a| - TrailingSpaces(a)]
  }

  /** `lines.map(line => line.trim())` */
  function TrimAll(rs: seq<string>): (r: seq<string>)
    ensures |r| == |rs| && forall i :: 0 <= i < |rs| ==> r[i] == Trim(rs[i])
  {
    seq(|rs|, i requires 0 <= i < |rs| => Trim(rs[i]))
  }

  /** Trimming only takes whitespace off the two ends. */
  lemma TrimParts(s: string) returns (w1: string, w2: string)
    ensures AllSpace(w1) && AllSpace(w2) && s == w1 + Trim(s) + w2
  {
    var n := LeadingSpaces(s);
    var a := s[n..];
    var m := TrailingSpaces(a);
    w1, w2 := s[..n], a[|a| - m..];
    Cut3(s, n, a, m, Trim(s), w2);
  }

  /** A sequence is its first `n` elements, the middle, and the last `m` elements after those. */
  lemma Cut3<T>(s: seq<T>, n: nat, a: seq<T>, m: nat, t: seq<T>, z: seq<T>)
    requires n <= |s| && a == s[n..] && m <= |a| && t == a[..|a| - m] && z == a[|a| - m..]
    ensures s == s[..n] + t + z
  {
    assert a == t + z;
    assert s == s[..n] + a;
  }

  /** A whitespace run ended by a non-whitespace character (or by the end) is the leading whitespace. */
  lemma {:induction false} LeadingSpacesIs(s: string, k: nat)
    requires k <= |s| && AllSpace(s[..k]) && (k < |s| ==> !IsSpace(s[k]))
    ensures LeadingSpaces(s) == k
    decreases k
  {
    if k > 0 {
      assert IsSpace(s[..k][0]);
      assert s[1..][..k - 1] == s[..k][1..];
      LeadingSpacesIs(s[1..], k - 1);
    }
  }

  /** A whitespace run preceded by a non-whitespace character (or by the start) is the trailing
      whitespace. */
  lemma {:induction false} TrailingSpacesIs(s: string, k: nat)
    requires k <= |s| && AllSpace(s[|s| - k..]) && (k < |s| ==> !IsSpace(s[|s| - 1 - k]))
    ensures TrailingSpaces(s) == k
    decreases k
  {
    if k > 0 {
      var t := s[..|s| - 1];
      assert IsSpace(s[|s| - k..][k - 1]);
      assert t[|t| - (k - 1)..] == s[|s| - k..][..k - 1];
      TrailingSpacesIs(t, k - 1);
    }
  }

  /** Whatever whitespace surrounds a trimmed-shaped text, trimming gives that text back. */
  lemma TrimUnique(w1: string, t: string, w2: string)
    requires AllSpace(w1) && AllSpace(w2) && IsTrimmed(t)
    ensures Trim(w1 + t + w2) == t
  {
    var s := w1 + t + w2;
    if t == [] {
      forall k | 0 <= k < |s| ensures IsSpace(s[..|s|][k]) {
        if k < |w1| {
          assert s[k] == w1[k];
        } else {
          assert s[k] == w2[k - |w1|];
        }
      }
      LeadingSpacesIs(s, |s|);
      assert s[|s|..] == [];
    } else {
      assert s[..|w1|] == w1;
      assert s[|w1|] == t[0];
      LeadingSpacesIs(s, |w1|);
      var a := s[|w1|..];
      assert a == t + w2;
      assert a[|a| - |w2|..] == w2;
      assert a[|a| - 1 - |w2|] == t[|t| - 1];
      TrailingSpacesIs(a, |w2|);
      assert a[..|a| - |w2|] == t;
    }
  }

  /** Leading whitespace does not change what `trim` returns. */
  lemma TrimAfterSpace(w: string, x: string)
    requires AllSpace(w)
    ensures Trim(w + x) == Trim(x)
  {
    var w1, w2 := TrimParts(x);
    Regroup(w, x, w1, Trim(x), w2);
    AllSpaceAppend(w, w1);
    TrimUnique(w + w1, Trim(x), w2);
  }

  /** The end of the whitespace run that starts at `j`: what `\s*` takes there. */
  function SpacesEnd(s: string, j: nat): (r: nat)
    requires j <= |s|
    ensures j <= r <= |s| && AllSpace(s[j..r]) && (r < |s| ==> !IsSpace(s[r]))
  {
    LeadingRunPrefix(s, j, j + LeadingSpaces(s[j..]));
    j + LeadingSpaces(s[j..])
  }

  /** Any stretch within the whitespace run that starts at `i` is whitespace. */
  lemma LeadingRunPrefix(s: string, i: nat, j: nat)
    requires i <= j <= |s| && j <= i + LeadingSpaces(s[i..])
    ensures AllSpace(s[i..j])
  {
    var n := LeadingSpaces(s[i..]);
    SliceOfPrefix(s, i, j, n);
    AllSpacePrefix(s[i..][..n], j - i);
  }

  lemma SliceOfPrefix<T>(s: seq<T>, i: nat, j: nat, n: nat)
    requires i <= j <= |s| && j - i <= n <= |s| - i
    ensures s[i..j] == s[i..][..n][..j - i]
  {
  }

  lemma AllSpacePrefix(a: string, k: nat)
    requires AllSpace(a) && k <= |a|
    ensures AllSpace(a[..k])
  {
    assert forall i :: 0 <= i < k ==> a[..k][i] == a[i];
  }

  lemma Regroup<T>(w: seq<T>, x: seq<T>, p: seq<T>, t: seq<T>, q: seq<T>)
    requires x == p + t + q
    ensures w + x == (w + p) + t + q
  {
  }

  lemma AllSpaceAppend(a: string, b: string)
    requires AllSpace(a) && AllSpace(b)
    ensures AllSpace(a + b)
  {
    forall k | 0 <= k < |a + b| ensures IsSpace((a + b)[k]) {
      if k < |a| {
        assert (a + b)[k] == a[k];
      } else {
        assert (a + b)[k] == b[k - |a|];
      }
    }
  }

  /** `trim` is idempotent. */
  lemma TrimIdempotent(s: string)
    ensures Trim(Trim(s)) == Trim(s)
  {
    assert Trim(s) == [] + Trim(s) + [];
    TrimUnique([], Trim(s), []);
  }

  /** `s.split(sep)` for a non-empty separator string. */
  function Split(s: string, sep: string): (r: seq<string>)
    requires |sep| > 0
    ensures |r| >= 1
    decreases |s|
  {
    var i := IndexOf(s, sep);
    if i == -1 then [s] else [s[..i]] + Split(s[i + |sep|..], sep)
  }

  /** `parts.join(sep)` */
  function Join(parts: seq<string>, sep: string): string {
    if |parts| == 0 then ""
    else if |parts| == 1 then parts[0]
    else parts[0] + sep + Join(parts[1..], sep)
  }

  /** Joining one more part appends the separator and the part. */
  lemma {:induction false} JoinSnoc(xs: seq<string>, y: string, sep: string)
    requires xs != []
    ensures Join(xs + [y], sep) == Join(xs, sep) + sep + y
  {
    if |xs| > 1 {
      assert (xs + [y])[1..] == xs[1..] + [y];
      JoinSnoc(xs[1..], y, sep);
    }
  }

  /** Splitting on a separator and joining with it gives the text back. */
  lemma {:induction false} JoinSplit(s: string, sep: string)
    requires |sep| > 0
    ensures Join(Split(s, sep), sep) == s
    decreases |s|
  {
    var i := IndexOf(s, sep);
    if i != -1 {
      var rest := s[i + |sep|..];
      JoinSplit(rest, sep);
      assert Split(s, sep) == [s[..i]] + Split(rest, sep);
      JoinCons(s[..i], Split(rest, sep), sep);
      CutAround(s, i, sep);
    }
  }

  lemma JoinCons(a: string, xs: seq<string>, sep: string)
    requires xs != []
    ensures Join([a] + xs, sep) == a + sep + Join(xs, sep)
  {
    assert ([a] + xs)[1..] == xs;
  }

  lemma CutAround<T>(s: seq<T>, i: nat, t: seq<T>)
    requires i + |t| <= |s| && s[i..i + |t|] == t
    ensures s == s[..i] + t + s[i + |t|..]
  {
    assert s == s[..i] + s[i..i + |t|] + s[i + |t|..];
  }

  /** The texts of `parts` one after the other (`parts.join('')`). */
  function Concat(parts: seq<string>): string {
    if parts == [] then "" else Concat(parts[..|parts| - 1]) + parts[|parts| - 1]
  }

  /** `s.replace(/\D/g, '')`: the digits of `s`, in order. */
  function Digits(s: string): (r: string)
    ensures |r| <= |s| && forall i :: 0 <= i < |r| ==> IsDigit(r[i])
  {
    if s == [] then [] else (if IsDigit(s[0]) then [s[0]] else []) + Digits(s[1..])
  }

  /** Removing the non-digits distributes over concatenation. */
  lemma {:induction false} DigitsAppend(a: string, b: string)
    ensures Digits(a + b) == Digits(a) + Digits(b)
  {
    if a != [] {
      assert (a + b)[0] == a[0];
      assert (a + b)[1..] == a[1..] + b;
      DigitsAppend(a[1..], b);
      var h := if IsDigit(a[0]) then [a[0]] else [];
      assert Digits(a + b) == h + Digits(a[1..] + b);
      assert Digits(a) == h + Digits(a[1..]);
    } else {
      assert a + b == b;
    }
  }

  function DigitChar(d: nat): char
    requires d < 10
  {
    ('0' as int + d) as char
  }

  /** The decimal text of a natural number, as a template literal renders it. */
  function NatToString(n: nat): (r: string)
    ensures |r| >= 1 && forall i :: 0 <= i < |r| ==> IsDigit(r[i])
    ensures (n < 10) == (|r| == 1)
  {
    if n < 10 then [DigitChar(n)] else NatToString(n / 10) + [DigitChar(n % 10)]
  }

  /** Different numbers have different decimal texts. */
  lemma {:induction false} NatToStringInjective(m: nat, n: nat)
    requires NatToString(m) == NatToString(n)
    ensures m == n
    decreases m
  {
    if 10 <= m {
      var s := NatToString(m);
      assert s[|s| - 1] == DigitChar(m % 10) == DigitChar(n % 10);
      assert s[..|s| - 1] == NatToString(m / 10) == NatToString(n / 10);
      NatToStringInjective(m / 10, n / 10);
    }
  }
}
