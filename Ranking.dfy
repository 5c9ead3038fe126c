/** The ranking chain of the `/rag/search` handler in server.js:
    `kb.map(score).filter(score > 0).sort(by descending score)`. The runtime's
    `Array.prototype.sort` is stable, so documents with equal scores keep
    their knowledge-base order; the sort is modelled as a stable insertion sort. */
module Ranking {
  import opened Scoring

  /** A document paired with its score. */
  datatype Scored = Scored(doc: Document, score: nat)

  /** `kb.map(doc => ({ doc, score: scoreDoc(doc, qTokens) }))`. */
  function ScoreAll(kb: seq<Document>, qTokens: seq<string>): (r: seq<Scored>)
    ensures |r| == |kb|
    ensures forall k :: 0 <= k < |kb| ==> r[k] == Scored(kb[k], Score(kb[k], qTokens))
  {
    seq(|kb|, k requires 0 <= k < |kb| => Scored(kb[k], Score(kb[k], qTokens)))
  }

  /** `.filter(x => x.score > 0)`. */
  function Positive(s: seq<Scored>): seq<Scored>
  {
    if s == [] then []
    else (if s[0].score > 0 then [s[0]] else []) + Positive(s[1..])
  }

  /** The entries of `s` that have score `v`, in their order in `s`. */
  function WithScore(s: seq<Scored>, v: nat): seq<Scored>
  {
    if s == [] then []
    else (if s[0].score == v then [s[0]] else []) + WithScore(s[1..], v)
  }

  /** Scores never go up along the list. */
  predicate NonIncreasing(s: seq<Scored>)
  {
    forall i, j :: 0 <= i < j < |s| ==> s[i].score >= s[j].score
  }

  /** Inserts `x` into a list sorted by descending score, before the first
      entry that does not score more than it. */
  function Insert(x: Scored, s: seq<Scored>): seq<Scored>
  {
    if s == [] || s[0].score <= x.score then [x] + s
    else [s[0]] + Insert(x, s[1..])
  }

  /** `.sort((a, b) => b.score - a.score)`. */
  function SortDesc(s: seq<Scored>): seq<Scored>
  {
    if s == [] then [] else Insert(s[0], SortDesc(s[1..]))
  }

  /** The ranking of the knowledge base for the query tokens. */
  function Rank(kb: seq<Document>, qTokens: seq<string>): seq<Scored>
  {
    SortDesc(Positive(ScoreAll(kb, qTokens)))
  }

  lemma {:induction false} PositiveSpec(s: seq<Scored>)
    ensures multiset(Positive(s)) <= multiset(s)
    ensures forall x :: x in Positive(s) <==> x in s && x.score > 0
    ensures |Positive(s)| <= |s|
  {
    if s != [] {
      PositiveSpec(s[1..]);
      assert s == [s[0]] + s[1..];
    }
  }

  /** Nothing is kept exactly when every entry scores zero. */
  lemma {:induction false} PositiveEmpty(s: seq<Scored>)
    ensures Positive(s) == [] <==> forall k :: 0 <= k < |s| ==> s[k].score == 0
  {
    if s != [] {
      PositiveEmpty(s[1..]);
      assert forall k :: 1 <= k < |s| ==> s[k] == s[1..][k - 1];
    }
  }

  /** Dropping the zero scores leaves the entries of each positive score as
      they were. */
  lemma {:induction false} WithScorePositive(s: seq<Scored>, v: nat)
    requires v > 0
    ensures WithScore(Positive(s), v) == WithScore(s, v)
  {
    if s != [] {
      WithScorePositive(s[1..], v);
      if s[0].score > 0 {
        assert Positive(s) == [s[0]] + Positive(s[1..]);
        assert ([s[0]] + Positive(s[1..]))[1..] == Positive(s[1..]);
      } else {
        assert Positive(s) == Positive(s[1..]);
        assert WithScore(s, v) == WithScore(s[1..], v);
      }
    }
  }

  lemma {:induction false} InsertPermutes(x: Scored, s: seq<Scored>)
    ensures multiset(Insert(x, s)) == multiset(s) + multiset{x}
  {
    if !(s == [] || s[0].score <= x.score) {
      InsertPermutes(x, s[1..]);
      assert s == [s[0]] + s[1..];
    }
  }

  lemma {:induction false} InsertSorted(x: Scored, s: seq<Scored>)
    requires NonIncreasing(s)
    ensures NonIncreasing(Insert(x, s))
  {
    if !(s == [] || s[0].score <= x.score) {
      var tail := Insert(x, s[1..]);
      InsertSorted(x, s[1..]);
      InsertPermutes(x, s[1..]);
      forall y | y in tail
        ensures y.score <= s[0].score
      {
        assert y in multiset(tail);
        if y != x {
          assert y in s[1..];
        }
      }
    }
  }

  /** Inserting `x` puts it before every entry that scores the same. In the
      sort those entries come later in the input than `x`, so input order is
      kept. */
  lemma {:induction false} InsertStable(x: Scored, s: seq<Scored>, v: nat)
    requires NonIncreasing(s)
    ensures WithScore(Insert(x, s), v) == (if x.score == v then [x] else []) + WithScore(s, v)
  {
    if s == [] || s[0].score <= x.score {
      assert ([x] + s)[1..] == s;
      if x.score == v && s != [] && s[0].score == v {
        assert WithScore(s, v) == [s[0]] + WithScore(s[1..], v);
      }
    } else {
      InsertStable(x, s[1..], v);
      assert ([s[0]] + Insert(x, s[1..]))[1..] == Insert(x, s[1..]);
    }
  }

  /** The sort orders by descending score, ... */
  lemma {:induction false} SortDescSorted(s: seq<Scored>)
    ensures NonIncreasing(SortDesc(s))
  {
    if s != [] {
      SortDescSorted(s[1..]);
      InsertSorted(s[0], SortDesc(s[1..]));
    }
  }

  /** ... permutes its input, ... */
  lemma {:induction false} SortDescPermutes(s: seq<Scored>)
    ensures multiset(SortDesc(s)) == multiset(s)
  {
    if s != [] {
      SortDescPermutes(s[1..]);
      InsertPermutes(s[0], SortDesc(s[1..]));
      assert s == [s[0]] + s[1..];
    }
  }

  /** ... and is stable: the entries with any one score come out in their
      input order. */
  lemma {:induction false} SortDescStable(s: seq<Scored>, v: nat)
    ensures WithScore(SortDesc(s), v) == WithScore(s, v)
  {
    if s != [] {
      SortDescStable(s[1..], v);
      SortDescSorted(s[1..]);
      InsertStable(s[0], SortDesc(s[1..]), v);
    }
  }

  /** Taking a prefix keeps the entries of each score in order and takes a
      prefix of them. */
  lemma {:induction false} WithScorePrefix(s: seq<Scored>, n: nat, v: nat)
    requires n <= |s|
    ensures WithScore(s, v) == WithScore(s[..n], v) + WithScore(s[n..], v)
  {
    if n > 0 {
      WithScorePrefix(s[1..], n - 1, v);
      assert s[..n][1..] == s[1..][..n - 1];
      assert s[n..] == s[1..][n - 1..];
    } else {
      assert s[n..] == s;
    }
  }

  /** The ranking: every entry is a knowledge-base document with its score,
      the score is positive, the positive-scoring documents all appear once
      each (the ranking permutes them), scores do not increase along it, and
      the documents with any one score appear in knowledge-base order. */
  lemma RankSpec(kb: seq<Document>, qTokens: seq<string>)
    ensures var r := Rank(kb, qTokens); var pos := Positive(ScoreAll(kb, qTokens));
      && multiset(r) == multiset(pos)
      && |r| == |pos| <= |kb|
      && NonIncreasing(r)
      && (forall v: nat :: v > 0 ==> WithScore(r, v) == WithScore(ScoreAll(kb, qTokens), v))
      && (forall k :: 0 <= k < |r| ==>
            r[k].score > 0 && r[k].doc in kb && r[k].score == Score(r[k].doc, qTokens))
  {
    var s := ScoreAll(kb, qTokens);
    var pos := Positive(s);
    var r := Rank(kb, qTokens);
    PositiveSpec(s);
    SortDescPermutes(pos);
    SortDescSorted(pos);
    assert |r| == |multiset(r)|;
    forall v: nat | v > 0
      ensures WithScore(r, v) == WithScore(s, v)
    {
      SortDescStable(pos, v);
      WithScorePositive(s, v);
    }
    forall k | 0 <= k < |r|
      ensures r[k].score > 0 && r[k].doc in kb && r[k].score == Score(r[k].doc, qTokens)
    {
      assert r[k] in multiset(r);
      assert r[k] in pos;
      var j :| 0 <= j < |s| && s[j] == r[k];
    }
  }
}
