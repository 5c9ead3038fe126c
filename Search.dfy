/** The request logic of the `/rag/search` handler in server.js: reject an
    empty query, clamp `top_k`, rank the knowledge base, keep the first
    `top_k` entries and turn each into a result record. */
module Search {
  import opened Text
  import opened Tokenizer
  import opened Occurrences
  import opened Scoring
  import opened Snippets
  import opened Ranking

  datatype Option<T> = None | Some(value: T)

  /** What `Number(top_k)` gives: not-a-number, an infinity or a finite value. */
  datatype JsNumber = NaN | PosInfinity | NegInfinity | Finite(value: real)

  function RMin(a: real, b: real): real { if a <= b then a else b }
  function RMax(a: real, b: real): real { if a >= b then a else b }

  /** `Math.max(1, Math.min(10, Number(top_k) || 5))`, with `top_k` defaulting
      to 5 when the request body has none. `NaN` and zero are falsy, so both
      fall back to 5. */
  function ClampTopK(topK: Option<JsNumber>): (k: real)
    ensures 1.0 <= k <= 10.0
  {
    var n := if topK.None? then Finite(5.0) else topK.value;
    match n
    case NaN => 5.0
    case PosInfinity => 10.0
    case NegInfinity => 1.0
    case Finite(v) => if v == 0.0 then 5.0 else RMax(1.0, RMin(10.0, v))
  }

  /** How many entries `slice(0, topK)` keeps at most: the slice end is
      truncated to an integer. */
  function Limit(k: real): (n: nat)
    requires 1.0 <= k <= 10.0
    ensures 1 <= n <= 10 && n as real <= k < n as real + 1.0
  {
    k.Floor
  }

  /** How `top_k` becomes the effective bound: a missing, zero or non-numeric
      value gives 5, anything above 10 gives 10, anything below 1 gives 1, and
      a whole number from 1 to 10 is kept. */
  lemma ClampTopKCases(topK: Option<JsNumber>)
    ensures topK.None? || topK == Some(NaN) || topK == Some(Finite(0.0)) ==> ClampTopK(topK) == 5.0
    ensures topK == Some(PosInfinity) || (topK.Some? && topK.value.Finite? && topK.value.value > 10.0)
      ==> ClampTopK(topK) == 10.0
    ensures topK == Some(NegInfinity)
      || (topK.Some? && topK.value.Finite? && topK.value.value < 1.0 && topK.value.value != 0.0)
      ==> ClampTopK(topK) == 1.0
    ensures topK.Some? && topK.value.Finite? && 1.0 <= topK.value.value <= 10.0
      ==> ClampTopK(topK) == topK.value.value
    ensures topK.Some? && topK.value.Finite? && 1.0 <= topK.value.value <= 10.0
      ==> Limit(ClampTopK(topK)) == topK.value.value.Floor
  {
  }

  /** One entry of the `results` array. */
  datatype Hit = Hit(id: string, title: string, url: string, score: nat, snippet: string, tags: Tags)

  /** The closing `.map(x => ({ id, title, url, score, snippet, tags }))`. */
  function ToHit(x: Scored, qTokens: seq<string>): Hit
  {
    Hit(x.doc.id, x.doc.title, x.doc.url, x.score, Snippet(x.doc.content, qTokens, DefaultRadius), x.doc.tags)
  }

  /** The JSON the handler answers with. */
  datatype Response =
    | Found(results: seq<Hit>, query: string, topK: real)
    | Error(status: nat, message: string)

  /** The entries the handler keeps: `.slice(0, topK)` of the ranking. */
  function TopEntries(kb: seq<Document>, qTokens: seq<string>, k: real): (top: seq<Scored>)
    requires 1.0 <= k <= 10.0
  {
    var ranked := Rank(kb, qTokens);
    ranked[..Min(Limit(k), |ranked|)]
  }

  /** The `/rag/search` handler, apart from the statistics. */
  function HandleSearch(kb: seq<Document>, query: string, topK: Option<JsNumber>): Response
  {
    var q := Trim(query);
    if q == [] then Error(400, "Missing 'query'")
    else
      var k := ClampTopK(topK);
      var qTokens := Tokenize(q);
      var top := TopEntries(kb, qTokens, k);
      Found(seq(|top|, i requires 0 <= i < |top| => ToHit(top[i], qTokens)), q, k)
  }

  /** The handler answers 400 "Missing 'query'" exactly when the query is
      empty or white space only. */
  lemma EmptyQueryRejected(kb: seq<Document>, query: string, topK: Option<JsNumber>)
    ensures HandleSearch(kb, query, topK).Error? <==> forall i :: 0 <= i < |query| ==> IsSpace(query[i])
    ensures HandleSearch(kb, query, topK).Error? ==> HandleSearch(kb, query, topK) == Error(400, "Missing 'query'")
  {
    TrimSpec(query);
  }

  /** What a successful search returns: the trimmed query and the clamped
      bound; at most that many results (cut to a whole number) and no more
      than there are positive-scoring documents; each result a knowledge-base
      document with a positive score, its score and its snippet around the
      earliest query token; scores not increasing; and nothing left out that
      scores more than a result kept. */
  lemma SearchResults(kb: seq<Document>, query: string, topK: Option<JsNumber>)
    requires Trim(query) != []
    ensures var r := HandleSearch(kb, query, topK);
      var qTokens := Tokenize(Trim(query));
      var ranked := Rank(kb, qTokens);
      && r.Found? && r.query == Trim(query) && r.topK == ClampTopK(topK)
      && |r.results| == Min(Limit(r.topK), |Positive(ScoreAll(kb, qTokens))|)
      && (forall i :: 0 <= i < |r.results| ==> r.results[i] == ToHit(ranked[i], qTokens))
      && (forall i :: 0 <= i < |r.results| ==>
            r.results[i].score > 0
            && exists d :: d in kb && r.results[i].score == Score(d, qTokens)
                 && r.results[i] == Hit(d.id, d.title, d.url, Score(d, qTokens),
                                        Snippet(d.content, qTokens, DefaultRadius), d.tags))
      && (forall i, j :: 0 <= i < j < |r.results| ==> r.results[i].score >= r.results[j].score)
      && (forall i, j :: 0 <= i < |r.results| <= j < |ranked| ==> ranked[j].score <= r.results[i].score)
  {
    var qTokens := Tokenize(Trim(query));
    var ranked := Rank(kb, qTokens);
    RankSpec(kb, qTokens);
    var r := HandleSearch(kb, query, topK);
    forall i | 0 <= i < |r.results|
      ensures exists d :: d in kb && r.results[i].score == Score(d, qTokens)
                 && r.results[i] == Hit(d.id, d.title, d.url, Score(d, qTokens),
                                        Snippet(d.content, qTokens, DefaultRadius), d.tags)
    {
      var d := ranked[i].doc;
      assert d in kb;
    }
  }

  /** Equal scores keep their knowledge-base order: the results with any one
      score are the first of the knowledge-base documents with that score,
      in knowledge-base order. */
  lemma SearchStable(kb: seq<Document>, query: string, topK: Option<JsNumber>, v: nat)
    requires Trim(query) != [] && v > 0
    ensures var qTokens := Tokenize(Trim(query));
      WithScore(TopEntries(kb, qTokens, ClampTopK(topK)), v) <= WithScore(ScoreAll(kb, qTokens), v)
  {
    var qTokens := Tokenize(Trim(query));
    var ranked := Rank(kb, qTokens);
    var n := Min(Limit(ClampTopK(topK)), |ranked|);
    RankSpec(kb, qTokens);
    WithScorePrefix(ranked, n, v);
  }

  /** A query without tokens (no run of two letters or digits) finds nothing. */
  lemma NoTokensNoResults(kb: seq<Document>, query: string, topK: Option<JsNumber>)
    requires Trim(query) != [] && Tokenize(Trim(query)) == []
    ensures HandleSearch(kb, query, topK).results == []
  {
    var s := ScoreAll(kb, []);
    PositiveEmpty(s);
  }

  /** Under the one case folding of this model, the scorer's case-insensitive
      regular expression and the snippet's lower-cased `indexOf` agree on
      whether a token occurs in the content. */
  lemma CountedIffFound(content: string, t: string)
    requires t != []
    ensures CountOccurrences(content, t) > 0 <==> Find(content, t) >= 0
  {
    CountZeroIffAbsent(content, t);
  }

  /** A document that has the query word once, in its content only, scores 1,
      and its snippet is the whole (short) content. */
  lemma ContentOnlyExample()
    ensures var d := Document("1", "", "", TagList([]), "今日は嬉しい");
      && Tokenize("嬉しい") == ["嬉しい"]
      && Score(d, ["嬉しい"]) == 1
      && Snippet(d.content, ["嬉しい"], DefaultRadius) == "今日は嬉しい"
  {
    TokenizeExample();
    ScoreExample();
    SnippetExample();
  }

  lemma ScoreExample()
    ensures Score(Document("1", "", "", TagList([]), "今日は嬉しい"), ["嬉しい"]) == 1
  {
    var d := Document("1", "", "", TagList([]), "今日は嬉しい");
    CountExample();
    assert TagsText(d.tags) == [];
    assert Score(d, ["嬉しい"]) == TokenScore(d, "嬉しい") + Score(d, []);
  }

  lemma SnippetExample()
    ensures Snippet("今日は嬉しい", ["嬉しい"], DefaultRadius) == "今日は嬉しい"
  {
    var c: string, q: string := "今日は嬉しい", "嬉しい";
    FindExample();
    assert [q][..0] == [];
    assert Earliest(c, [q]) == Earlier(-1, 3) == 3;
    assert Excerpt(c, 3, DefaultRadius) == Window(c, 0, 6);
    assert c[0..6] == c;
  }

  lemma TokenizeExample()
    ensures Tokenize("嬉しい") == ["嬉しい"]
  {
    var q: string := "嬉しい";
    assert LowerStr(q) == q;
    assert RunEnd(q, 3) == 3;
    assert RunEnd(q, 0) == 3;
    assert Runs(q, 3) == [];
    assert Runs(q, 0) == [Span(0, 3)];
    assert LongRuns([Span(0, 3)]) == [Span(0, 3)];
    assert TokenSpans(LowerStr(q)) == [Span(0, 3)];
    assert q[0..3] == q;
    assert |Tokenize(q)| == 1 && Tokenize(q)[0] == q;
  }

  lemma CountExample()
    ensures CountOccurrences("今日は嬉しい", "嬉しい") == 1
  {
    var c: string, q: string := "今日は嬉しい", "嬉しい";
    assert LowerStr(c) == c && LowerStr(q) == q;
    FirstCharDiffers(c, q, 0);
    FirstCharDiffers(c, q, 1);
    FirstCharDiffers(c, q, 2);
    assert c[3..6] == q;
    assert OccursAt(c, q, 3);
    assert Matches(c, q, 6) == [];
    assert Matches(c, q, 0) == [3];
  }

  lemma FindExample()
    ensures Find("今日は嬉しい", "嬉しい") == 3
  {
    var c: string, q: string := "今日は嬉しい", "嬉しい";
    assert LowerStr(c) == c && LowerStr(q) == q;
    FirstCharDiffers(c, q, 0);
    FirstCharDiffers(c, q, 1);
    FirstCharDiffers(c, q, 2);
    assert c[3..6] == q;
  }

  /** A word cannot occur where its first character does not. */
  lemma FirstCharDiffers(c: string, q: string, j: nat)
    requires j < |c| && q != [] && c[j] != q[0]
    ensures !OccursAt(c, q, j)
  {
    if j + |q| <= |c| {
      assert c[j..j + |q|][0] == c[j];
    }
  }
}
