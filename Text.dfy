/** Character classes, case folding and the few string operations of the
    JavaScript runtime that the keyword search relies on: `toLowerCase`,
    `trim`, `indexOf` and `Array.prototype.join`. */
module Text {

  /** The ellipsis marker that the snippet extractor puts around a cut excerpt. */
  const Ellipsis: char := '\U{2026}'

  /** Per-character lower-casing. The runtime folds all of Unicode; this model
      folds ASCII, Latin-1 and full-width Latin capitals. The general lemmas
      use only that folding keeps the length and is idempotent; the worked
      examples use the concrete folding. */
  function Lower(c: char): char
  {
    if 'A' <= c <= 'Z' || ('\U{C0}' <= c <= '\U{DE}' && c != '\U{D7}') || '\U{FF21}' <= c <= '\U{FF3A}'
    then (c as int + 32) as char
    else c
  }

  lemma LowerIdempotent(c: char)
    ensures Lower(Lower(c)) == Lower(c)
  {
  }

  /** `s.toLowerCase()`, one character at a time, so the length is kept. */
  function LowerStr(s: string): (r: string)
    ensures |r| == |s|
    ensures forall i :: 0 <= i < |s| ==> r[i] == Lower(s[i])
  {
    seq(|s|, i requires 0 <= i < |s| => Lower(s[i]))
  }

  /** Lower-casing a lower-cased string changes nothing. */
  lemma LowerStrIdempotent(s: string)
    ensures LowerStr(LowerStr(s)) == LowerStr(s)
  {
    forall i | 0 <= i < |s|
      ensures LowerStr(LowerStr(s))[i] == LowerStr(s)[i]
    {
      LowerIdempotent(s[i]);
    }
  }

  /** Lower-casing commutes with taking a slice. */
  lemma LowerStrSlice(s: string, i: nat, j: nat)
    requires i <= j <= |s|
    ensures LowerStr(s[i..j]) == LowerStr(s)[i..j]
  {
  }

  /** The `[\p{L}\p{N}]` class of the tokenizer's regular expression: letters
      and digits. Modelled for ASCII, Latin-1, the Japanese syllabaries, the
      CJK ideographs and the full-width and half-width forms. */
  predicate IsWordChar(c: char)
  {
    || 'a' <= c <= 'z' || 'A' <= c <= 'Z' || '0' <= c <= '9'
    || c == '\U{AA}' || c == '\U{B5}' || c == '\U{BA}'
    || ('\U{C0}' <= c <= '\U{FF}' && c != '\U{D7}' && c != '\U{F7}')
    || '\U{3005}' <= c <= '\U{3007}'
    || '\U{3041}' <= c <= '\U{3096}' || '\U{309D}' <= c <= '\U{309F}'
    || ('\U{30A1}' <= c <= '\U{30FF}' && c != '\U{30FB}')
    || '\U{4E00}' <= c <= '\U{9FFF}'
    || '\U{FF10}' <= c <= '\U{FF19}' || '\U{FF21}' <= c <= '\U{FF3A}' || '\U{FF41}' <= c <= '\U{FF5A}'
    || '\U{FF66}' <= c <= '\U{FF9F}'
  }

  /** The characters `String.prototype.trim` removes: the ECMAScript
      WhiteSpace and LineTerminator code points. */
  predicate IsSpace(c: char)
  {
    || c == '\t' || c == '\n' || c == '\U{B}' || c == '\U{C}' || c == '\r' || c == ' '
    || c == '\U{A0}' || c == '\U{1680}' || '\U{2000}' <= c <= '\U{200A}'
    || c == '\U{2028}' || c == '\U{2029}' || c == '\U{202F}' || c == '\U{205F}'
    || c == '\U{3000}' || c == '\U{FEFF}'
  }

  /** The first position at or after `i` that does not hold white space:
      `trim`'s cut at the front. */
  function FirstNonSpace(s: string, i: nat): (j: nat)
    requires i <= |s|
    ensures i <= j <= |s|
    ensures forall k :: i <= k < j ==> IsSpace(s[k])
    ensures j == |s| || !IsSpace(s[j])
    decreases |s| - i
  {
    if i < |s| && IsSpace(s[i]) then FirstNonSpace(s, i + 1) else i
  }

  /** The end of `s[lo..j]` once its trailing white space is dropped: `trim`'s
      cut at the back. */
  function LastNonSpaceEnd(s: string, lo: nat, j: nat): (e: nat)
    requires lo <= j <= |s|
    ensures lo <= e <= j
    ensures forall k :: e <= k < j ==> IsSpace(s[k])
    ensures e == lo || !IsSpace(s[e - 1])
    decreases j
  {
    if lo < j && IsSpace(s[j - 1]) then LastNonSpaceEnd(s, lo, j - 1) else j
  }

  /** `s.trim()`. */
  function Trim(s: string): string
  {
    var a := FirstNonSpace(s, 0);
    s[a..LastNonSpaceEnd(s, a, |s|)]
  }

  /** `t` is `s[a..b]`, and everything of `s` outside `[a, b)` is white space. */
  predicate CutFrom(s: string, t: string, a: nat, b: nat)
  {
    && a <= b <= |s| && t == s[a..b]
    && (forall i :: 0 <= i < a ==> IsSpace(s[i]))
    && (forall i :: b <= i < |s| ==> IsSpace(s[i]))
  }

  /** What `trim` promises: the result is a slice of the input with only white
      space cut away at either end and none left at its ends; it is empty
      exactly when the input is all white space. */
  lemma TrimSpec(s: string)
    ensures exists a: nat, b: nat :: CutFrom(s, Trim(s), a, b)
    ensures Trim(s) != [] ==> !IsSpace(Trim(s)[0]) && !IsSpace(Trim(s)[|Trim(s)| - 1])
    ensures Trim(s) == [] <==> forall i :: 0 <= i < |s| ==> IsSpace(s[i])
  {
    var a := FirstNonSpace(s, 0);
    var b := LastNonSpaceEnd(s, a, |s|);
    assert CutFrom(s, Trim(s), a, b);
    if a != b {
      assert Trim(s)[0] == s[a] && Trim(s)[|Trim(s)| - 1] == s[b - 1];
    }
  }

  /** The needle occurs in the haystack at position `i`. */
  predicate OccursAt(hay: string, needle: string, i: nat)
  {
    i + |needle| <= |hay| && hay[i..i + |needle|] == needle
  }

  /** `hay.indexOf(needle, i)`: a position at or after `i` from which the
      needle fits in the haystack, or -1 (`IndexFromSpec` says which). */
  function IndexFrom(hay: string, needle: string, i: nat): (r: int)
    ensures r == -1 || (i <= r && r + |needle| <= |hay|)
    decreases |hay| - i
  {
    if i + |needle| > |hay| then -1
    else if hay[i..i + |needle|] == needle then i
    else IndexFrom(hay, needle, i + 1)
  }

  /** `indexOf` finds the first position at or after `i` where the needle
      occurs, and gives -1 exactly when it occurs nowhere from `i` on. */
  lemma {:induction false} IndexFromSpec(hay: string, needle: string, i: nat)
    ensures var r := IndexFrom(hay, needle, i);
      && (r == -1 || (i <= r && OccursAt(hay, needle, r)))
      && (r == -1 ==> forall j :: i <= j ==> !OccursAt(hay, needle, j))
      && (r >= 0 ==> forall j :: i <= j < r ==> !OccursAt(hay, needle, j))
    decreases |hay| - i
  {
    if i + |needle| <= |hay| && hay[i..i + |needle|] != needle {
      IndexFromSpec(hay, needle, i + 1);
    }
  }

  /** `hay.indexOf(needle)`. */
  function IndexOf(hay: string, needle: string): int
  {
    IndexFrom(hay, needle, 0)
  }

  /** `xs.join(sep)`. */
  function Join(xs: seq<string>, sep: string): string
  {
    if xs == [] then []
    else if |xs| == 1 then xs[0]
    else xs[0] + sep + Join(xs[1..], sep)
  }
}
