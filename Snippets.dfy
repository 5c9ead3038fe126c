/** `makeSnippet` of server.js: an excerpt of the content around the earliest
    place where any query token occurs, ignoring case, or the beginning of the
    content when none does; an ellipsis marks each side where text was cut. */
module Snippets {
  import opened Text

  /** The radius the search handler uses. */
  const DefaultRadius: nat := 80

  function Min(a: int, b: int): int { if a <= b then a else b }
  function Max(a: int, b: int): int { if a >= b then a else b }

  /** `content.toLowerCase().indexOf(t.toLowerCase())`: -1 or a position
      from which the token fits in the content. */
  function Find(content: string, t: string): (i: int)
    ensures i == -1 || (0 <= i && i + |t| <= |content|)
  {
    IndexOf(LowerStr(content), LowerStr(t))
  }

  /** `Find` gives the first position where the token occurs in the content
      ignoring case, or -1 when it occurs nowhere. */
  lemma FindSpec(content: string, t: string)
    ensures var i := Find(content, t);
      && (i == -1 || (0 <= i && OccursAt(LowerStr(content), LowerStr(t), i)))
      && (i == -1 ==> forall j: nat :: !OccursAt(LowerStr(content), LowerStr(t), j))
      && (i >= 0 ==> forall j: nat :: j < i ==> !OccursAt(LowerStr(content), LowerStr(t), j))
  {
    IndexFromSpec(LowerStr(content), LowerStr(t), 0);
  }

  /** One step of the loop over the tokens: keep the earlier of two positions,
      -1 standing for "not found". */
  function Earlier(idx: int, i: int): int
  {
    if i >= 0 && (idx < 0 || i < idx) then i else idx
  }

  /** The value of `idx` after the loop has gone over all of `qTokens`. */
  function Earliest(content: string, qTokens: seq<string>): (idx: int)
    ensures -1 <= idx <= |content|
    decreases |qTokens|
  {
    if qTokens == [] then -1
    else Earlier(Earliest(content, qTokens[..|qTokens| - 1]), Find(content, qTokens[|qTokens| - 1]))
  }

  /** The loop finds the smallest position at which some token occurs, and -1
      exactly when no token occurs. */
  lemma {:induction false} EarliestIsMinimum(content: string, qTokens: seq<string>)
    ensures Earliest(content, qTokens) == -1 <==> forall t :: t in qTokens ==> Find(content, t) == -1
    ensures Earliest(content, qTokens) >= 0 ==>
      && (exists t :: t in qTokens && Find(content, t) == Earliest(content, qTokens))
      && (forall t :: t in qTokens && Find(content, t) >= 0 ==> Earliest(content, qTokens) <= Find(content, t))
    decreases |qTokens|
  {
    if qTokens != [] {
      var init, last := qTokens[..|qTokens| - 1], qTokens[|qTokens| - 1];
      EarliestIsMinimum(content, init);
      assert qTokens == init + [last];
      assert forall t :: t in qTokens <==> t in init || t == last;
    }
  }

  /** `content[s..e]`, with an ellipsis before it when it starts after the
      beginning and after it when it stops before the end. */
  function Window(content: string, s: nat, e: nat): string
    requires s <= e <= |content|
  {
    (if s > 0 then [Ellipsis] else []) + content[s..e] + (if e < |content| then [Ellipsis] else [])
  }

  /** The excerpt once the earliest match position `idx` is known. */
  function Excerpt(content: string, idx: int, radius: nat): string
    requires -1 <= idx <= |content|
  {
    if idx < 0 then
      content[..Min(2 * radius, |content|)] + (if |content| > 2 * radius then [Ellipsis] else [])
    else
      var start := Max(0, idx - radius);
      var end := Min(|content|, idx + radius);
      Window(content, start, end)
  }

  /** `makeSnippet(content, qTokens, radius)`. */
  function Snippet(content: string, qTokens: seq<string>, radius: nat): (r: string)
    ensures content == [] ==> r == []
  {
    if content == [] then [] else Excerpt(content, Earliest(content, qTokens), radius)
  }

  /** `makeSnippet`: the loop over the tokens that keeps the earliest position,
      then the slicing. */
  method MakeSnippet(content: string, qTokens: seq<string>, radius: nat) returns (snippet: string)
    ensures snippet == Snippet(content, qTokens, radius)
  {
    if content == [] {
      return [];
    }
    var idx := -1;
    for k := 0 to |qTokens|
      invariant idx == Earliest(content, qTokens[..k])
    {
      var i := IndexOf(LowerStr(content), LowerStr(qTokens[k]));
      assert i == Find(content, qTokens[..k + 1][k]);
      if i >= 0 && (idx < 0 || i < idx) {
        idx := i;
      }
      assert qTokens[..k + 1][..k] == qTokens[..k];
    }
    assert qTokens[..|qTokens|] == qTokens;
    assert Snippet(content, qTokens, radius) == Excerpt(content, idx, radius);
    if idx < 0 {
      assert radius * 2 == 2 * radius;
      snippet := content[..Min(radius * 2, |content|)] + (if |content| > radius * 2 then [Ellipsis] else []);
      return;
    }
    var start := Max(0, idx - radius);
    var end := Min(|content|, idx + radius);
    var prefix := if start > 0 then [Ellipsis] else [];
    var suffix := if end < |content| then [Ellipsis] else [];
    snippet := prefix + content[start..end] + suffix;
    assert snippet == Window(content, start, end);
  }

  /** Whatever the tokens, a non-empty content gives a window of at most
      `2 * radius` characters of it, with an ellipsis before it exactly when
      it does not start at the beginning and after it exactly when it stops
      before the end. */
  lemma SnippetIsWindow(content: string, qTokens: seq<string>, radius: nat)
    requires content != []
    ensures exists s, e :: (0 <= s <= e <= |content| && e - s <= 2 * radius
      && Snippet(content, qTokens, radius) == Window(content, s, e))
  {
    ExcerptIsWindow(content, Earliest(content, qTokens), radius);
  }

  /** The excerpt for any position the loop can end with is such a window. */
  lemma ExcerptIsWindow(content: string, idx: int, radius: nat)
    requires -1 <= idx <= |content|
    ensures exists s, e :: (0 <= s <= e <= |content| && e - s <= 2 * radius
      && Excerpt(content, idx, radius) == Window(content, s, e))
  {
    if idx < 0 {
      var e := Min(2 * radius, |content|);
      assert content[..e] == content[0..e];
      assert Excerpt(content, idx, radius) == Window(content, 0, e);
    } else {
      var s, e := Max(0, idx - radius), Min(|content|, idx + radius);
      assert 0 <= s <= e <= |content| && e - s <= 2 * radius;
      assert Excerpt(content, idx, radius) == Window(content, s, e);
    }
  }

  /** When no token occurs in the content: its first `2 * radius` characters,
      followed by an ellipsis exactly when there are more. */
  lemma SnippetWithoutMatch(content: string, qTokens: seq<string>, radius: nat)
    requires content != []
    requires forall t :: t in qTokens ==> Find(content, t) == -1
    ensures Snippet(content, qTokens, radius) ==
      content[..Min(2 * radius, |content|)] + (if |content| > 2 * radius then [Ellipsis] else [])
  {
    EarliestIsMinimum(content, qTokens);
  }

  /** When some token occurs: the window from `radius` characters before the
      earliest match (`Earliest`, the smallest match position by
      `EarliestIsMinimum`) to `radius` characters after its start, clamped to
      the content, with the ellipsis markers where it was clamped short. The
      window holds the start of the match. */
  lemma SnippetAroundMatch(content: string, qTokens: seq<string>, radius: nat)
    requires content != [] && radius > 0
    requires exists t :: t in qTokens && Find(content, t) >= 0
    ensures var idx := Earliest(content, qTokens);
      var s := Max(0, idx - radius);
      var e := Min(|content|, idx + radius);
      && 0 <= s <= idx < e <= |content|
      && Snippet(content, qTokens, radius) == Window(content, s, e)
  {
    EarliestInside(content, qTokens);
    SnippetInside(content, qTokens, radius);
  }

  /** The snippet once the earliest match is known to lie inside the content. */
  lemma SnippetInside(content: string, qTokens: seq<string>, radius: nat)
    requires radius > 0 && 0 <= Earliest(content, qTokens) < |content|
    ensures var idx := Earliest(content, qTokens);
      var s := Max(0, idx - radius);
      var e := Min(|content|, idx + radius);
      && 0 <= s <= idx < e <= |content|
      && Snippet(content, qTokens, radius) == Window(content, s, e)
  {
    ExcerptAround(content, Earliest(content, qTokens), radius);
  }

  /** When some token occurs, the earliest match lies inside the content. */
  lemma EarliestInside(content: string, qTokens: seq<string>)
    requires content != []
    requires exists t :: t in qTokens && Find(content, t) >= 0
    ensures 0 <= Earliest(content, qTokens) < |content|
  {
    EarliestIsMinimum(content, qTokens);
    var idx := Earliest(content, qTokens);
    var t' :| t' in qTokens && Find(content, t') == idx;
    NotAtEnd(content, t');
  }

  lemma ExcerptAround(content: string, idx: int, radius: nat)
    requires 0 <= idx < |content| && radius > 0
    ensures var s := Max(0, idx - radius);
      var e := Min(|content|, idx + radius);
      && 0 <= s <= idx < e <= |content|
      && Excerpt(content, idx, radius) == Window(content, s, e)
  {
  }

  /** A match in a non-empty content starts before its end. */
  lemma NotAtEnd(content: string, t: string)
    requires content != [] && Find(content, t) >= 0
    ensures Find(content, t) < |content|
  {
    if t == [] {
      assert LowerStr(content)[0..0] == LowerStr(t);
    }
  }
}
