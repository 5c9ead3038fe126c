/** `countOccurrences` of server.js: the number of matches of the escaped word
    as a global, case-insensitive regular expression. Escaping makes the
    pattern match the word literally, so a match is a case-insensitive
    occurrence, and the global scan resumes after each match, so matches never
    overlap and the leftmost one is always taken. */
module Occurrences {
  import opened Text

  /** The start positions of the matches the global scan of the lower-cased
      text `h` for the lower-cased word `w` finds from position `i` on. */
  function Matches(h: string, w: string, i: nat): seq<nat>
    requires |w| > 0
    decreases |h| - i
  {
    if i + |w| > |h| then []
    else if OccursAt(h, w, i) then [i] + Matches(h, w, i + |w|)
    else Matches(h, w, i + 1)
  }

  /** `ps` is a list of occurrences of `w` in `h`, left to right, none
      overlapping the next, all at or after `i`. */
  predicate Disjoint(h: string, w: string, ps: seq<nat>, i: nat)
    decreases |ps|
  {
    ps == [] || (i <= ps[0] && OccursAt(h, w, ps[0]) && Disjoint(h, w, ps[1..], ps[0] + |w|))
  }

  /** `countOccurrences(text, word)`. */
  function CountOccurrences(text: string, word: string): (n: nat)
    ensures text == [] || word == [] ==> n == 0
  {
    if text == [] || word == [] then 0
    else |Matches(LowerStr(text), LowerStr(word), 0)|
  }

  /** The scan finds genuine, non-overlapping occurrences. */
  lemma {:induction false} MatchesDisjoint(h: string, w: string, i: nat)
    requires |w| > 0
    ensures Disjoint(h, w, Matches(h, w, i), i)
    decreases |h| - i
  {
    if i + |w| > |h| {
    } else if OccursAt(h, w, i) {
      MatchesDisjoint(h, w, i + |w|);
    } else {
      MatchesDisjoint(h, w, i + 1);
      DisjointWeaken(h, w, Matches(h, w, i + 1), i + 1, i);
    }
  }

  lemma DisjointWeaken(h: string, w: string, ps: seq<nat>, i: nat, i': nat)
    requires Disjoint(h, w, ps, i) && i' <= i
    ensures Disjoint(h, w, ps, i')
  {
  }

  /** No list of non-overlapping occurrences is longer than what the scan
      finds: leftmost-first matching counts the most occurrences possible. */
  lemma {:induction false} MatchesMaximum(h: string, w: string, i: nat, ps: seq<nat>)
    requires |w| > 0 && Disjoint(h, w, ps, i)
    ensures |ps| <= |Matches(h, w, i)|
    decreases |h| - i
  {
    if ps == [] || i + |w| > |h| {
    } else if OccursAt(h, w, i) {
      DisjointWeaken(h, w, ps[1..], ps[0] + |w|, i + |w|);
      MatchesMaximum(h, w, i + |w|, ps[1..]);
    } else {
      assert ps[0] != i;
      assert Disjoint(h, w, ps, i + 1);
      MatchesMaximum(h, w, i + 1, ps);
    }
  }

  /** The count is the largest number of non-overlapping case-insensitive
      occurrences of the word in the text, and the scan's matches reach it. */
  lemma CountIsMaximum(text: string, word: string)
    requires word != []
    ensures var h, w := LowerStr(text), LowerStr(word);
      && (text != [] ==> Disjoint(h, w, Matches(h, w, 0), 0)
                         && |Matches(h, w, 0)| == CountOccurrences(text, word))
      && forall ps :: Disjoint(h, w, ps, 0) ==> |ps| <= CountOccurrences(text, word)
  {
    var h, w := LowerStr(text), LowerStr(word);
    MatchesDisjoint(h, w, 0);
    forall ps | Disjoint(h, w, ps, 0)
      ensures |ps| <= CountOccurrences(text, word)
    {
      MatchesMaximum(h, w, 0, ps);
    }
  }

  /** The scan's first match is where `indexOf` finds the word, and the scan
      finds nothing exactly when `indexOf` finds nothing. */
  lemma {:induction false} MatchesStartAtIndex(h: string, w: string, i: nat)
    requires |w| > 0
    ensures Matches(h, w, i) == [] <==> IndexFrom(h, w, i) == -1
    ensures Matches(h, w, i) != [] ==> Matches(h, w, i)[0] == IndexFrom(h, w, i)
    decreases |h| - i
  {
    if i + |w| > |h| {
    } else if OccursAt(h, w, i) {
    } else {
      MatchesStartAtIndex(h, w, i + 1);
    }
  }

  /** The word counts zero times exactly when a case-insensitive `indexOf`
      does not find it. */
  lemma CountZeroIffAbsent(text: string, word: string)
    requires word != []
    ensures CountOccurrences(text, word) == 0 <==> IndexOf(LowerStr(text), LowerStr(word)) == -1
  {
    if text != [] {
      MatchesStartAtIndex(LowerStr(text), LowerStr(word), 0);
    }
  }

  /** Each match takes up the length of the word, so they cannot number more
      than the text has room for. */
  lemma {:induction false} MatchesRoom(h: string, w: string, i: nat)
    requires |w| > 0 && i <= |h|
    ensures |Matches(h, w, i)| * |w| <= |h| - i
    decreases |h| - i
  {
    if i + |w| > |h| {
    } else if OccursAt(h, w, i) {
      var rest := Matches(h, w, i + |w|);
      assert Matches(h, w, i) == [i] + rest;
      MatchesRoom(h, w, i + |w|);
      MulSucc(|rest|, |w|);
    } else {
      assert Matches(h, w, i) == Matches(h, w, i + 1);
      MatchesRoom(h, w, i + 1);
    }
  }

  lemma MulSucc(n: nat, m: nat)
    ensures (n + 1) * m == n * m + m
  {
  }

  lemma CountBound(text: string, word: string)
    ensures CountOccurrences(text, word) * |word| <= |text|
  {
    if text != [] && word != [] {
      MatchesRoom(LowerStr(text), LowerStr(word), 0);
    }
  }

  /** Counting ignores case in the word and in the text. */
  lemma CountIgnoresCase(text: string, word: string)
    ensures CountOccurrences(text, LowerStr(word)) == CountOccurrences(text, word)
    ensures CountOccurrences(LowerStr(text), word) == CountOccurrences(text, word)
  {
    LowerStrIdempotent(word);
    LowerStrIdempotent(text);
  }

  /** Overlapping occurrences are not counted twice: "aa" in "aaa" counts once. */
  lemma CountNonOverlapping()
    ensures CountOccurrences("aaa", "aa") == 1
  {
    var h, w := LowerStr("aaa"), LowerStr("aa");
    assert h == "aaa" && w == "aa";
    assert OccursAt(h, w, 0);
    assert Matches(h, w, 2) == [];
  }
}
