/** similarity.js: every stored embedding is paired with its position and its similarity to the
    question, and the pairs are sorted by decreasing similarity with a stable sort. The similarities
    themselves are floating-point numbers computed outside the model and given as input. */
module Similarity {

  /** `{ index, similarity }` */
  datatype Scored = Scored(index: nat, similarity: real)

  /** The `map` step: position and similarity of each embedding, in input order. */
  function Indexed(sims: seq<real>): (r: seq<Scored>)
    ensures |r| == |sims| && forall i :: 0 <= i < |sims| ==> r[i] == Scored(i, sims[i])
  {
    seq(|sims|, i requires 0 <= i < |sims| => Scored(i, sims[i]))
  }

  /** `a` comes before `b` in the output: higher similarity first; on equal similarity the earlier
      position first, as a stable sort of the input order leaves them. */
  predicate Before(a: Scored, b: Scored) {
    a.similarity > b.similarity || (a.similarity == b.similarity && a.index < b.index)
  }

  predicate Ranked(r: seq<Scored>) {
    forall i, j :: 0 <= i < j < |r| ==> Before(r[i], r[j])
  }

  /** Places `x` after every element that comes before it. */
  function Insert(x: Scored, r: seq<Scored>): (q: seq<Scored>)
    ensures multiset(q) == multiset(r) + multiset{x}
    ensures |q| == |r| + 1
  {
    if r == [] then [x]
    else if Before(r[0], x) then
      assert r == [r[0]] + r[1..];
      [r[0]] + Insert(x, r[1..])
    else [x] + r
  }

  lemma {:induction false} InsertRanked(x: Scored, r: seq<Scored>)
    requires Ranked(r)
    requires forall y | y in r :: y.index != x.index
    ensures Ranked(Insert(x, r))
  {
    if r != [] {
      if Before(r[0], x) {
        InsertRanked(x, r[1..]);
        var tail := Insert(x, r[1..]);
        forall y | y in tail ensures Before(r[0], y) {
          assert y in multiset(tail);
          if y != x {
            assert y in multiset(r[1..]);
            var j :| 0 <= j < |r[1..]| && r[1..][j] == y;
            assert r[j + 1] == y;
          }
        }
        var q := [r[0]] + tail;
        forall i, j | 0 <= i < j < |q| ensures Before(q[i], q[j]) {
          if i == 0 {
            assert q[j] in tail;
          } else {
            assert q[i] == tail[i - 1] && q[j] == tail[j - 1];
          }
        }
      } else {
        assert r[0] in r;
      }
    }
  }

  /** A stable descending sort, by insertion. */
  function SortDescending(s: seq<Scored>): seq<Scored> {
    if s == [] then [] else Insert(s[|s| - 1], SortDescending(s[..|s| - 1]))
  }

  lemma {:induction false} SortDescendingCorrect(s: seq<Scored>)
    requires forall i, j :: 0 <= i < j < |s| ==> s[i].index != s[j].index
    ensures multiset(SortDescending(s)) == multiset(s)
    ensures Ranked(SortDescending(s))
  {
    if s != [] {
      var init, x := s[..|s| - 1], s[|s| - 1];
      SortDescendingCorrect(init);
      assert s == init + [x];
      forall y | y in SortDescending(init) ensures y.index != x.index {
        assert y in multiset(init);
        var j :| 0 <= j < |init| && init[j] == y;
      }
      InsertRanked(x, SortDescending(init));
    }
  }

  /** `similarity`: one entry per embedding, carrying its position and similarity, ordered by
      non-increasing similarity, equal similarities in input order; nothing is dropped. */
  function Rank(sims: seq<real>): (r: seq<Scored>)
    ensures |r| == |sims|
    ensures multiset(r) == multiset(Indexed(sims))
    ensures Ranked(r)
  {
    var s := Indexed(sims);
    SortDescendingCorrect(s);
    assert |SortDescending(s)| == |multiset(SortDescending(s))|;
    SortDescending(s)
  }

  /** Some entry of `r` carries position `i`. */
  ghost predicate HasIndex(r: seq<Scored>, i: nat) {
    exists j :: 0 <= j < |r| && r[j].index == i
  }

  /** The positions in the output are a permutation of 0..n-1, each carrying its own similarity;
      the similarities do not increase, and equal similarities keep the input order. */
  lemma RankProperties(sims: seq<real>)
    ensures var r := Rank(sims);
      && (forall j :: 0 <= j < |r| ==> r[j].index < |sims| && r[j].similarity == sims[r[j].index])
      && (forall i :: 0 <= i < |sims| ==> HasIndex(r, i))
      && (forall j, k :: 0 <= j < k < |r| ==> r[j].index != r[k].index)
      && (forall j, k :: 0 <= j < k < |r| ==> r[j].similarity >= r[k].similarity)
      && (forall j, k :: 0 <= j < k < |r| && r[j].similarity == r[k].similarity ==> r[j].index < r[k].index)
  {
    var r, s := Rank(sims), Indexed(sims);
    forall j | 0 <= j < |r| ensures r[j].index < |sims| && r[j].similarity == sims[r[j].index] {
      assert r[j] in multiset(s);
      var i :| 0 <= i < |s| && s[i] == r[j];
    }
    forall i | 0 <= i < |sims| ensures HasIndex(r, i) {
      assert s[i] in multiset(r);
      var j :| 0 <= j < |r| && r[j] == s[i];
    }
    forall j, k | 0 <= j < k < |r| ensures r[j].index != r[k].index {
      assert Before(r[j], r[k]);
    }
  }

  lemma HeadsEqual(a: seq<Scored>, b: seq<Scored>)
    requires Ranked(a) && Ranked(b) && multiset(a) == multiset(b) && a != []
    ensures b != [] && a[0] == b[0]
  {
    assert a[0] in multiset(b);
    assert b[0] in multiset(a);
    var k :| 0 <= k < |b| && b[k] == a[0];
    var m :| 0 <= m < |a| && a[m] == b[0];
    assert k == 0 || Before(b[0], a[0]);
    assert m == 0 || Before(a[0], b[0]);
  }

  lemma TailsSameEntries(a: seq<Scored>, b: seq<Scored>)
    requires multiset(a) == multiset(b) && a != [] && b != [] && a[0] == b[0]
    ensures multiset(a[1..]) == multiset(b[1..])
  {
    assert a == [a[0]] + a[1..] && b == [b[0]] + b[1..];
    assert multiset(a[1..]) == multiset(a) - multiset{a[0]};
    assert multiset(b[1..]) == multiset(b) - multiset{b[0]};
  }

  /** Two rankings of the same entries are equal: the order is fully determined, so any stable sort
      (`Array.prototype.sort` is stable) gives exactly `Rank`. */
  lemma {:induction false} RankedUnique(a: seq<Scored>, b: seq<Scored>)
    requires Ranked(a) && Ranked(b) && multiset(a) == multiset(b)
    ensures a == b
  {
    if a != [] {
      HeadsEqual(a, b);
      TailsSameEntries(a, b);
      RankedUnique(a[1..], b[1..]);
      assert a == [a[0]] + a[1..] && b == [b[0]] + b[1..];
    } else {
      assert |b| == |multiset(b)| == |multiset(a)| == 0;
    }
  }

  /** Ranking is deterministic and agrees with every sort that keeps all entries and orders them by
      decreasing similarity and then by position. */
  lemma RankIsTheStableSort(sims: seq<real>, q: seq<Scored>)
    requires multiset(q) == multiset(Indexed(sims)) && Ranked(q)
    ensures q == Rank(sims)
  {
    RankedUnique(q, Rank(sims));
  }
}
