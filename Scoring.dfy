/** `scoreDoc` of server.js: a document's relevance to the query tokens, each
    case-insensitive occurrence of a token weighing 3 in the title, 2 in the
    tags joined with spaces and 1 in the content. */
module Scoring {
  import opened Text
  import opened Occurrences

  /** The `tags` field of a knowledge-base entry: a list of strings, or any
      other value, given here already converted by `String(doc.tags || "")`. */
  datatype Tags = TagList(items: seq<string>) | TagText(text: string)

  /** A knowledge-base entry. A missing `title`, `url` or `content` is "". */
  datatype Document = Document(id: string, title: string, url: string, tags: Tags, content: string)

  /** The text the tags are searched in. */
  function TagsText(tags: Tags): string
  {
    match tags
    case TagList(items) => Join(items, " ")
    case TagText(text) => text
  }

  /** What one token adds to the score of a document. */
  function TokenScore(doc: Document, t: string): nat
  {
    3 * CountOccurrences(doc.title, t) + 2 * CountOccurrences(TagsText(doc.tags), t)
      + CountOccurrences(doc.content, t)
  }

  /** The score `scoreDoc` returns: the token scores added up. */
  function Score(doc: Document, qTokens: seq<string>): nat
  {
    if qTokens == [] then 0 else TokenScore(doc, qTokens[0]) + Score(doc, qTokens[1..])
  }

  /** The occurrences of all the tokens in one field of a document. */
  function FieldHits(field: string, qTokens: seq<string>): nat
  {
    if qTokens == [] then 0 else CountOccurrences(field, qTokens[0]) + FieldHits(field, qTokens[1..])
  }

  /** The score splits into the three fields with their weights. */
  lemma {:induction false} ScoreByField(doc: Document, qTokens: seq<string>)
    ensures Score(doc, qTokens) == 3 * FieldHits(doc.title, qTokens)
      + 2 * FieldHits(TagsText(doc.tags), qTokens) + FieldHits(doc.content, qTokens)
  {
    if qTokens != [] {
      ScoreByField(doc, qTokens[1..]);
    }
  }

  /** A query whose tokens occur only in the content scores each occurrence once. */
  lemma ScoreContentOnly(doc: Document, qTokens: seq<string>)
    requires forall t :: t in qTokens ==>
      CountOccurrences(doc.title, t) == 0 && CountOccurrences(TagsText(doc.tags), t) == 0
    ensures Score(doc, qTokens) == FieldHits(doc.content, qTokens)
  {
    ScoreByField(doc, qTokens);
    NoHits(doc.title, qTokens);
    NoHits(TagsText(doc.tags), qTokens);
  }

  lemma {:induction false} NoHits(field: string, qTokens: seq<string>)
    requires forall t :: t in qTokens ==> CountOccurrences(field, t) == 0
    ensures FieldHits(field, qTokens) == 0
  {
    if qTokens != [] {
      NoHits(field, qTokens[1..]);
    }
  }

  /** Scores add up over a token list cut in two. */
  lemma {:induction false} ScoreAppend(doc: Document, a: seq<string>, b: seq<string>)
    ensures Score(doc, a + b) == Score(doc, a) + Score(doc, b)
  {
    if a != [] {
      assert (a + b)[1..] == a[1..] + b;
      ScoreAppend(doc, a[1..], b);
    } else {
      assert a + b == b;
    }
  }

  /** A token mentions a document when it occurs in its title, tags or content. */
  predicate Mentions(doc: Document, t: string)
  {
    CountOccurrences(doc.title, t) > 0 || CountOccurrences(TagsText(doc.tags), t) > 0
      || CountOccurrences(doc.content, t) > 0
  }

  /** A document scores above zero exactly when some token mentions it; in
      particular no tokens give score 0. */
  lemma {:induction false} ScorePositiveIff(doc: Document, qTokens: seq<string>)
    ensures Score(doc, qTokens) > 0 <==> exists t :: t in qTokens && Mentions(doc, t)
  {
    if qTokens != [] {
      var t0, rest := qTokens[0], qTokens[1..];
      ScorePositiveIff(doc, rest);
      assert TokenScore(doc, t0) > 0 <==> Mentions(doc, t0);
      if exists t :: t in qTokens && Mentions(doc, t) {
        var t :| t in qTokens && Mentions(doc, t);
        if t != t0 {
          assert t in rest;
        }
      }
      if Mentions(doc, t0) {
        assert t0 in qTokens;
      } else if Score(doc, rest) > 0 {
        var t :| t in rest && Mentions(doc, t);
        assert t in qTokens;
      }
    }
  }

  /** `scoreDoc(doc, qTokens)`: the loop adding up the three weighted counts
      of each token. */
  method ScoreDoc(doc: Document, qTokens: seq<string>) returns (score: nat)
    ensures score == Score(doc, qTokens)
  {
    var title := doc.title;
    var tags := TagsText(doc.tags);
    var content := doc.content;
    score := 0;
    for i := 0 to |qTokens|
      invariant score == Score(doc, qTokens[..i])
    {
      var t := qTokens[i];
      score := score + 3 * CountOccurrences(title, t);
      score := score + 2 * CountOccurrences(tags, t);
      score := score + 1 * CountOccurrences(content, t);
      assert qTokens[..i + 1] == qTokens[..i] + [t];
      ScoreAppend(doc, qTokens[..i], [t]);
    }
    assert qTokens[..|qTokens|] == qTokens;
  }
}
