/** `tokenize` of server.js: lower-case the query, take the maximal runs of
    letters and digits left to right, and keep the runs of length two or more. */
module Tokenizer {
  import opened Text

  /** The half-open stretch `[start, end)` of a string. */
  datatype Span = Span(start: nat, end: nat)

  predicate InBounds(s: string, sp: Span)
  {
    sp.start <= sp.end <= |s|
  }

  /** `sp` is a maximal run of word characters of `s`: non-empty, made of word
      characters only, and not extendable on either side. */
  predicate MaximalRun(s: string, sp: Span)
  {
    && sp.start < sp.end <= |s|
    && (forall p :: sp.start <= p < sp.end ==> IsWordChar(s[p]))
    && (sp.start == 0 || !IsWordChar(s[sp.start - 1]))
    && (sp.end == |s| || !IsWordChar(s[sp.end]))
  }

  /** The spans lie left to right with at least one character between neighbours. */
  predicate Ordered(sps: seq<Span>)
  {
    forall a, b :: 0 <= a < b < |sps| ==> sps[a].end < sps[b].start
  }

  /** The end of the run of word characters that starts at `i`. */
  function RunEnd(s: string, i: nat): (j: nat)
    requires i <= |s|
    ensures i <= j <= |s|
    ensures forall k :: i <= k < j ==> IsWordChar(s[k])
    ensures j == |s| || !IsWordChar(s[j])
    decreases |s| - i
  {
    if i < |s| && IsWordChar(s[i]) then RunEnd(s, i + 1) else i
  }

  /** The runs of word characters of `s` from position `i` on, as the global
      regular-expression match finds them: left to right, each as long as it goes. */
  function Runs(s: string, i: nat): (sps: seq<Span>)
    requires i <= |s|
    ensures forall k :: 0 <= k < |sps| ==> i <= sps[k].start && InBounds(s, sps[k])
    decreases |s| - i
  {
    if i == |s| then []
    else if !IsWordChar(s[i]) then Runs(s, i + 1)
    else [Span(i, RunEnd(s, i))] + Runs(s, RunEnd(s, i))
  }

  /** Position `i` is not inside a run: scanning from there misses no run's start. */
  predicate AtBoundary(s: string, i: nat)
    requires i <= |s|
  {
    i == 0 || i == |s| || !IsWordChar(s[i - 1]) || !IsWordChar(s[i])
  }

  /** Every span `Runs` returns is a maximal run. */
  lemma {:induction false} RunsMaximal(s: string, i: nat)
    requires i <= |s| && AtBoundary(s, i)
    ensures forall k :: 0 <= k < |Runs(s, i)| ==> MaximalRun(s, Runs(s, i)[k])
    decreases |s| - i
  {
    if i == |s| {
    } else if !IsWordChar(s[i]) {
      RunsMaximal(s, i + 1);
    } else {
      var j := RunEnd(s, i);
      RunsMaximal(s, j);
      assert MaximalRun(s, Span(i, j));
    }
  }

  /** The spans `Runs` returns lie left to right, apart from each other. */
  lemma {:induction false} RunsOrdered(s: string, i: nat)
    requires i <= |s| && AtBoundary(s, i)
    ensures Ordered(Runs(s, i))
    decreases |s| - i
  {
    if i == |s| {
    } else if !IsWordChar(s[i]) {
      RunsOrdered(s, i + 1);
    } else {
      var j := RunEnd(s, i);
      var rest := Runs(s, j);
      RunsOrdered(s, j);
      RunsMaximal(s, j);
      forall k | 0 <= k < |rest|
        ensures j < rest[k].start
      {
        assert MaximalRun(s, rest[k]);
        assert IsWordChar(s[rest[k].start]);
      }
      assert Runs(s, i) == [Span(i, j)] + rest;
    }
  }

  /** Every word character from position `i` on lies in a span of `Runs`. */
  lemma {:induction false} RunsCover(s: string, i: nat, p: nat)
    requires i <= p < |s| && IsWordChar(s[p])
    ensures exists k :: 0 <= k < |Runs(s, i)| && Runs(s, i)[k].start <= p < Runs(s, i)[k].end
    decreases |s| - i
  {
    if !IsWordChar(s[i]) {
      assert Runs(s, i) == Runs(s, i + 1);
      RunsCover(s, i + 1, p);
    } else {
      var j := RunEnd(s, i);
      var rest := Runs(s, j);
      assert Runs(s, i) == [Span(i, j)] + rest;
      if p < j {
        assert Runs(s, i)[0] == Span(i, j);
      } else {
        RunsCover(s, j, p);
        var k :| 0 <= k < |rest| && rest[k].start <= p < rest[k].end;
        assert Runs(s, i)[k + 1] == rest[k];
      }
    }
  }

  /** Two maximal runs that share a position are the same run. */
  lemma MaximalRunsOverlap(s: string, x: Span, y: Span, p: nat)
    requires MaximalRun(s, x) && MaximalRun(s, y)
    requires x.start <= p < x.end && y.start <= p < y.end
    ensures x == y
  {
  }

  /** The `filter(t => t.length >= 2)` step, on spans. */
  function LongRuns(sps: seq<Span>): (r: seq<Span>)
    ensures forall x :: x in r <==> x in sps && x.end - x.start >= 2
  {
    if sps == [] then []
    else (if sps[0].end - sps[0].start >= 2 then [sps[0]] else []) + LongRuns(sps[1..])
  }

  /** Keeping some of an ordered list of spans keeps it ordered. */
  lemma {:induction false} LongRunsOrdered(sps: seq<Span>)
    requires Ordered(sps)
    ensures Ordered(LongRuns(sps))
  {
    if sps != [] {
      LongRunsOrdered(sps[1..]);
      if sps[0].end - sps[0].start >= 2 {
        LongRunsAfter(sps);
        OrderedCons(sps[0], LongRuns(sps[1..]));
      }
    }
  }

  /** The first span of an ordered list lies before every long run kept from the rest. */
  lemma LongRunsAfter(sps: seq<Span>)
    requires Ordered(sps) && sps != []
    ensures forall k :: 0 <= k < |LongRuns(sps[1..])| ==> sps[0].end < LongRuns(sps[1..])[k].start
  {
    var tail := LongRuns(sps[1..]);
    forall k | 0 <= k < |tail|
      ensures sps[0].end < tail[k].start
    {
      assert tail[k] in tail;
      var c :| 0 <= c < |sps[1..]| && sps[1..][c] == tail[k];
      assert sps[c + 1] == tail[k];
    }
  }

  /** A span before every span of an ordered list can be put in front of it. */
  lemma OrderedCons(x: Span, t: seq<Span>)
    requires Ordered(t) && forall k :: 0 <= k < |t| ==> x.end < t[k].start
    ensures Ordered([x] + t)
  {
    var r := [x] + t;
    forall a, b | 0 <= a < b < |r|
      ensures r[a].end < r[b].start
    {
      assert r[b] == t[b - 1];
      if a > 0 {
        assert r[a] == t[a - 1];
      }
    }
  }

  /** The spans of the tokens of an already lower-cased string. */
  function TokenSpans(t: string): (sps: seq<Span>)
    ensures forall k :: 0 <= k < |sps| ==> InBounds(t, sps[k])
  {
    LongRuns(Runs(t, 0))
  }

  /** `tokenize(s)`. */
  function Tokenize(s: string): seq<string>
  {
    var t := LowerStr(s);
    var sps := TokenSpans(t);
    seq(|sps|, k requires 0 <= k < |sps| => t[sps[k].start..sps[k].end])
  }

  /** The tokens of `s` are, in query order, exactly the maximal runs of word
      characters of length at least two of the lower-cased query. */
  lemma TokenizeSpec(s: string)
    ensures var t := LowerStr(s); var sps := TokenSpans(t);
      && |Tokenize(s)| == |sps|
      && Ordered(sps)
      && (forall k :: 0 <= k < |sps| ==>
            MaximalRun(t, sps[k]) && sps[k].end - sps[k].start >= 2
            && Tokenize(s)[k] == t[sps[k].start..sps[k].end])
      && (forall x :: MaximalRun(t, x) && x.end - x.start >= 2 ==> x in sps)
  {
    var t := LowerStr(s);
    var runs := Runs(t, 0);
    RunsMaximal(t, 0);
    RunsOrdered(t, 0);
    LongRunsOrdered(runs);
    forall x | MaximalRun(t, x) && x.end - x.start >= 2
      ensures x in TokenSpans(t)
    {
      assert IsWordChar(t[x.start]);
      RunsCover(t, 0, x.start);
      var k :| 0 <= k < |runs| && runs[k].start <= x.start < runs[k].end;
      MaximalRunsOverlap(t, x, runs[k], x.start);
    }
    forall x | x in TokenSpans(t)
      ensures MaximalRun(t, x)
    {
      var k :| 0 <= k < |runs| && runs[k] == x;
    }
  }

  /** Every token has at least two characters, all of them letters or digits,
      and is already lower case. */
  lemma TokenShape(s: string)
    ensures forall tok :: tok in Tokenize(s) ==>
      && |tok| >= 2
      && (forall c :: c in tok ==> IsWordChar(c))
      && LowerStr(tok) == tok
  {
    var t := LowerStr(s);
    var sps := TokenSpans(t);
    TokenizeSpec(s);
    forall tok | tok in Tokenize(s)
      ensures |tok| >= 2 && (forall c :: c in tok ==> IsWordChar(c)) && LowerStr(tok) == tok
    {
      var k :| 0 <= k < |sps| && Tokenize(s)[k] == tok;
      assert tok == t[sps[k].start..sps[k].end];
      LowerStrSlice(s, sps[k].start, sps[k].end);
      LowerStrIdempotent(s[sps[k].start..sps[k].end]);
    }
  }
}
