# Keyword search and query statistics of the realtime voice helper

This project models the retrieval ("RAG") part of the helper server in
`server.js`, which answers `POST /rag/search` by looking up a query in a
static knowledge base:

- the query is trimmed; an empty query is answered with status 400 and
  `"Missing 'query'"`;
- `top_k` is clamped to `[1, 10]`, 5 when it is missing, zero or not a number;
- the query is lower-cased and cut into tokens: the maximal runs of letters
  and digits that are at least two characters long;
- every document is scored: each case-insensitive, non-overlapping occurrence
  of a token weighs 3 in the title, 2 in the space-joined tags and 1 in the
  content;
- documents scoring zero are dropped, the rest are sorted by descending score
  (stable, so ties keep their knowledge-base order) and the first `top_k`
  are kept;
- each kept document becomes a result record, with a snippet: up to 80
  characters on each side of the earliest place where a token occurs in the
  content, or the first 160 characters when none occurs, with an ellipsis
  where the text was cut;
- every successful search increments a counter and puts a record at the head
  of a most-recent-first list of at most 50 entries; `POST /rag/stats/reset`
  clears both.

Modules, one per step: `Text` (case folding, `trim`, `indexOf`, `join`),
`Tokenizer`, `Occurrences`, `Scoring`, `Snippets`, `Ranking`, `Search` (the
handler's logic) and `Stats` (the statistics record as a class, and the
complete handler as a method that updates it).

The two loops of the source are methods proved against functions:
`Scoring.ScoreDoc` against `Score`, and `Snippets.MakeSnippet` against
`Snippet`. The statistics record is the class `Stats.RagStats`, whose
fields the methods update in place. The rest of the chain (tokenizing,
counting, filtering, sorting, slicing) is expression code in the source and
is modelled as functions.

The knowledge base is a given `seq<Document>`. The time stamp and the user
agent of a statistics record are given strings.

Two details of the code:
- A `top_k` of 0 also becomes 5, because `Number(top_k) || 5` treats 0 as
  falsy.
- A fractional `top_k` is kept as given. For example 2.5 is echoed back and
  stored in the statistics, while `slice` keeps only 2 results
  (`Search.Limit`).

## Model

| member | source | states |
|---|---|---|
| Text.TrimSpec | server.js:208 | `trim` returns a contiguous slice of the query with only white space cut from either end and none left at its ends; the result is empty exactly when the query is all white space |
| Text.FirstNonSpace | server.js:208 | the front cut of `trim`: everything skipped is white space and the first character kept is not |
| Text.LastNonSpaceEnd | server.js:208 | the back cut of `trim`: everything dropped is white space and the last character kept is not |
| Text.IndexFromSpec | server.js:194 | `indexOf` returns the first position at which the needle occurs, and -1 exactly when it occurs nowhere |
| Tokenizer.RunsMaximal | server.js:168 | every run the global letter/digit match finds is a maximal run of letters and digits |
| Tokenizer.RunsOrdered | server.js:168 | the runs come left to right, separated from each other |
| Tokenizer.RunsCover | server.js:168 | every letter or digit of the query lies inside one of the runs found |
| Tokenizer.LongRuns | server.js:168 | the length filter keeps exactly the runs of length two or more |
| Tokenizer.LongRunsOrdered | server.js:168 | filtering keeps the runs in query order |
| Tokenizer.TokenizeSpec | server.js:167-169 | the tokens are, in query order, exactly the maximal letter/digit runs of length at least two of the lower-cased query |
| Tokenizer.TokenShape | server.js:167-169 | every token has length at least two, consists of letters and digits only, and is lower case |
| Occurrences.CountOccurrences | server.js:171-172 | the count is 0 when the text or the word is empty |
| Occurrences.MatchesDisjoint | server.js:173-174 | the global case-insensitive scan finds real occurrences that do not overlap, left to right |
| Occurrences.MatchesMaximum | server.js:173-174 | no list of non-overlapping occurrences is longer than the list the leftmost-first scan finds |
| Occurrences.CountIsMaximum | server.js:171-175 | the count is the largest number of non-overlapping case-insensitive occurrences of the word in the text |
| Occurrences.MatchesStartAtIndex | server.js:173-174 | the scan's first match is the position `indexOf` reports, and the scan finds nothing exactly when `indexOf` gives -1 |
| Occurrences.CountZeroIffAbsent | server.js:171-175 | the count is 0 exactly when the word does not occur in the text, ignoring case |
| Occurrences.CountBound | server.js:171-175 | count times word length never exceeds the text length |
| Occurrences.CountIgnoresCase | server.js:173 | lower-casing the word or the text does not change the count |
| Occurrences.CountNonOverlapping | server.js:173-174 | "aa" counts once in "aaa" |
| Scoring.ScoreDoc | server.js:177-188 | the loop computes the sum over tokens of 3·count(title) + 2·count(joined tags) + count(content) |
| Scoring.ScoreAppend | server.js:182-186 | the scores of two token lists add up when the lists are joined |
| Scoring.ScoreByField | server.js:181-186 | the score is 3 times the title hits plus 2 times the tag hits plus the content hits |
| Scoring.ScoreContentOnly | server.js:183-185 | when the tokens occur only in the content, the score is the number of content occurrences |
| Scoring.ScorePositiveIff | server.js:177-188 | the score is positive exactly when some token occurs in the title, the tags or the content; no tokens give 0 |
| Snippets.FindSpec | server.js:194 | the lower-cased `indexOf` gives the first case-insensitive occurrence of the token in the content, or -1 when there is none |
| Snippets.Earliest | server.js:192-196 | the loop's `idx` stays -1 or a position inside the content |
| Snippets.EarliestIsMinimum | server.js:192-196 | `idx` is -1 exactly when no token occurs, and otherwise the smallest occurrence position over all tokens |
| Snippets.Snippet | server.js:191 | empty content gives the empty snippet |
| Snippets.MakeSnippet | server.js:190-203 | the method computes `makeSnippet`, with the loop over the tokens keeping the earliest position |
| Snippets.SnippetIsWindow | server.js:197-202 | for non-empty content the snippet is a slice of at most 2·radius characters, with an ellipsis before it exactly when it starts after the beginning and after it exactly when it stops before the end |
| Snippets.SnippetWithoutMatch | server.js:197 | when no token occurs, the snippet is the first 2·radius characters plus an ellipsis exactly when the content is longer |
| Snippets.SnippetAroundMatch | server.js:198-202 | when a token occurs, the snippet is the content from max(0, idx−radius) to min(len, idx+radius) around the earliest match idx, the window holds the match's start, and the ellipsis markers show where it was cut |
| Ranking.ScoreAll | server.js:214-216 | each document is paired with its score, in knowledge-base order |
| Ranking.PositiveSpec | server.js:217 | the filter keeps exactly the positive-scoring entries, drawn from the input |
| Ranking.PositiveEmpty | server.js:217 | the filter keeps nothing exactly when every score is zero |
| Ranking.WithScorePositive | server.js:217 | the filter keeps the entries of each positive score in their input order |
| Ranking.InsertPermutes | server.js:218 | inserting into the sorted list adds exactly the inserted entry |
| Ranking.InsertSorted | server.js:218 | inserting keeps the list sorted by descending score |
| Ranking.InsertStable | server.js:218 | an inserted entry goes before the entries with the same score, which in the sort come later in the input, so ties keep input order |
| Ranking.SortDescSorted | server.js:218 | the sort leaves scores non-increasing |
| Ranking.SortDescPermutes | server.js:218 | the sort is a permutation of its input |
| Ranking.SortDescStable | server.js:218 | the entries with any one score leave the sort in their input order |
| Ranking.WithScorePrefix | server.js:219 | a prefix of the ranking holds, for each score, a prefix of the entries with that score |
| Ranking.RankSpec | server.js:214-218 | the ranking permutes the positive-scoring documents, each with its own score; scores are non-increasing; documents with equal scores keep knowledge-base order |
| Search.ClampTopK | server.js:207-210 | the effective `topK` lies in [1, 10] |
| Search.Limit | server.js:219 | `slice(0, topK)` keeps at most the whole part of `topK`, between 1 and 10 |
| Search.ClampTopKCases | server.js:207-210 | a missing, zero or non-numeric `top_k` gives 5; above 10 gives 10; below 1 gives 1; a value from 1 to 10 is kept |
| Search.EmptyQueryRejected | server.js:207-209 | the answer is 400 "Missing 'query'" exactly when the query is empty or white space only |
| Search.SearchResults | server.js:210-227 | results are the first entries of the ranking, as many as the limit and the positive-scoring documents allow; each has a positive score, comes from a knowledge-base document and carries that document's score and snippet; scores are non-increasing; no entry left out scores more than a result |
| Search.SearchStable | server.js:218-219 | the results with any one score are the first knowledge-base documents with that score, in knowledge-base order |
| Search.NoTokensNoResults | server.js:213-217 | a query with no tokens gives no results |
| Search.CountedIffFound | server.js:171-194 | under the model's single case folding `Text.Lower`, the scorer's regex count is positive exactly when the snippet's lower-cased `indexOf` finds the token; the runtime folds differently in the two places (see the `Text.Lower` line under "## Left out"), where they can disagree |
| Search.ContentOnlyExample | server.js:177-203 | a document holding the query word once, only in its content, scores 1, and its short content is its snippet |
| Stats.PrependSpec | server.js:232-239 | after recording, the new record is first, the previous ones follow in order, and the list is cut to 50 by dropping the oldest |
| Stats.RagStats.constructor | server.js:153 | the statistics start at total 0 with no records |
| Stats.RagStats.Record | server.js:230-239 | recording increments `total` by one and prepends the record, keeping at most 50 |
| Stats.RagStats.Reset | server.js:256-259 | reset sets `total` to 0 and `recent` to empty |
| Stats.HandleSearchRequest | server.js:205-242 | the handler answers as `HandleSearch`; an error leaves the statistics untouched, and a success counts once and records the trimmed query, the effective `topK` and the number of results |

## Left out

- The `/token` endpoint (`server.js:71-142`) is left out: an outbound HTTP request with a 15-second abort timer, and JSON parsing of the upstream reply.
- Loading the knowledge base (`server.js:154-165`) is left out: file reading, JSON parsing and caching. The knowledge base is an input sequence, and a failed load is the empty sequence.
- `GET /rag/stats` (`server.js:249-254`) only returns the two fields of `Stats.RagStats`, so it is not modelled separately.
- Framework wiring is left out: Express setup, static hosting, `/healthz`, `listen`, the optional helmet, CORS and rate-limit middleware, and the environment configuration.
- The catch-all 500 answer (`server.js:243-245`) and the `try`/`catch` around the statistics update (`server.js:240`) are left out, because nothing in the model can throw.
- Text.Lower: only ASCII, Latin-1 and full-width Latin capitals are folded, not all of Unicode. The general lemmas only use that folding keeps length and is idempotent; the worked examples (`Occurrences.CountNonOverlapping`, `Search.ContentOnlyExample` and its helpers) use the concrete folding. The model also ignores that `toLowerCase` can change a string's length, and that the regex `i` flag folds characters differently from `toLowerCase`.
- Text.IsWordChar: the `\p{L}\p{N}` class is approximated by ASCII, Latin-1, kana, CJK ideographs and the full-width and half-width forms. Strings are sequences of code points, not UTF-16 code units.
- Conversion of request bodies is left out. `String(query || "")` is taken as already turned into a string, and `Number(top_k)` as an already-converted `JsNumber`.
- Missing `title`, `url` or `content` fields are modelled as the empty string. The source would echo them as absent in the result record. Tag lists are lists of strings, and a non-list `tags` value is given already turned into text.
- The time stamp and the user agent of a statistics record are parameters of `Stats.HandleSearchRequest`, because they come from the clock and the request headers.
