/**
 * The string operations translator.py relies on: `str.lower()`, `str.strip()`,
 * `str.split()` with no argument and `str.startswith()`.
 * Characters are restricted to their ASCII behaviour: whitespace is what
 * Python's `str.isspace()` accepts below 128, and lowering maps 'A'..'Z' only.
 */
module Text {

  /** Python's ASCII whitespace: tab, line feed, vertical tab, form feed,
      carriage return, the separators 0x1C-0x1F, and space. */
  predicate IsSpace(c: char) {
    ('\t' <= c <= '\r') || ('\U{1C}' <= c <= '\U{1F}') || c == ' '
  }

  /** A string that `str.strip()` reduces to the empty string. */
  predicate IsBlank(s: string) {
    forall i :: 0 <= i < |s| ==> IsSpace(s[i])
  }

  /** A token `str.split()` can produce: non-empty and free of whitespace. */
  predicate IsWord(w: string) {
    w != [] && forall i :: 0 <= i < |w| ==> !IsSpace(w[i])
  }

  predicate IsUpper(c: char) {
    'A' <= c <= 'Z'
  }

  function LowerChar(c: char): char {
    if IsUpper(c) then (c as int + 32) as char else c
  }

  /** `s.lower()` */
  function Lower(s: string): (r: string)
    ensures |r| == |s|
    ensures forall i :: 0 <= i < |s| ==> r[i] == LowerChar(s[i])
    ensures forall i :: 0 <= i < |r| ==> !IsUpper(r[i])
  {
    if s == [] then [] else [LowerChar(s[0])] + Lower(s[1..])
  }

  /** Lowering works character by character. */
  lemma LowerAppend(a: string, b: string)
    ensures Lower(a + b) == Lower(a) + Lower(b)
  {
    var l, r := Lower(a + b), Lower(a) + Lower(b);
    forall i | 0 <= i < |l|
      ensures l[i] == r[i]
    {
      if i < |a| {
        assert (a + b)[i] == a[i];
      } else {
        assert (a + b)[i] == b[i - |a|];
      }
    }
  }

  /** Lowering leaves whitespace alone. */
  lemma LowerBlank(a: string)
    requires IsBlank(a)
    ensures Lower(a) == a
  {
    var l := Lower(a);
    assert forall i :: 0 <= i < |a| ==> l[i] == a[i];
  }

  /** Lowering neither creates nor removes whitespace. */
  lemma LowerKeepsBlank(s: string)
    ensures IsBlank(Lower(s)) <==> IsBlank(s)
  {
    var low := Lower(s);
    assert forall i :: 0 <= i < |s| ==> (IsSpace(low[i]) <==> IsSpace(s[i]));
  }

  /** Lowering twice is lowering once. */
  lemma LowerIdempotent(s: string)
    ensures Lower(Lower(s)) == Lower(s)
  {
  }

  /** `s.startswith(prefix)` */
  predicate StartsWith(s: string, prefix: string) {
    |prefix| <= |s| && s[..|prefix|] == prefix
  }

  /** `startswith` holds exactly when the string is the prefix followed by
      some rest. */
  lemma StartsWithConcat(s: string, prefix: string, rest: string)
    ensures s == prefix + rest ==> StartsWith(s, prefix)
    ensures StartsWith(s, prefix) ==> s == prefix + s[|prefix|..]
  {
    if s == prefix + rest {
      assert s[..|prefix|] == prefix;
    }
    if StartsWith(s, prefix) {
      assert s == s[..|prefix|] + s[|prefix|..];
    }
  }

  /** Index of the first non-whitespace character at or after `from`
      (`|s|` when there is none). */
  function FirstNonSpace(s: string, from: nat): (k: nat)
    requires from <= |s|
    ensures from <= k <= |s|
    ensures forall i :: from <= i < k ==> IsSpace(s[i])
    ensures k == |s| || !IsSpace(s[k])
    decreases |s| - from
  {
    if from < |s| && IsSpace(s[from]) then FirstNonSpace(s, from + 1) else from
  }

  /** Index just past the last non-whitespace character before `upTo`
      (`0` when there is none). */
  function EndOfText(s: string, upTo: nat): (e: nat)
    requires upTo <= |s|
    ensures e <= upTo
    ensures forall i :: e <= i < upTo ==> IsSpace(s[i])
    ensures e == 0 || !IsSpace(s[e - 1])
  {
    if upTo > 0 && IsSpace(s[upTo - 1]) then EndOfText(s, upTo - 1) else upTo
  }

  /** `s.strip()`: drops the leading whitespace, then the trailing whitespace. */
  function Strip(s: string): (r: string)
    ensures r == [] <==> IsBlank(s)
  {
    var k := FirstNonSpace(s, 0);
    if k == |s| then [] else s[k..EndOfText(s, |s|)]
  }

  /** `strip` of a string that is not blank is the slice between its two space runs. */
  lemma StripBySpaces(s: string)
    requires !IsBlank(s)
    ensures FirstNonSpace(s, 0) < EndOfText(s, |s|)
    ensures Strip(s) == s[FirstNonSpace(s, 0)..EndOfText(s, |s|)]
  {
    var k := FirstNonSpace(s, 0);
    assert k < |s| && !IsSpace(s[k]);
  }

  /** What `strip` returns has no whitespace at either end. */
  lemma StripTrimmed(s: string)
    ensures var r := Strip(s); r == [] || (!IsSpace(r[0]) && !IsSpace(r[|r| - 1]))
  {
    if !IsBlank(s) {
      StripBySpaces(s);
    }
  }

  /** `strip` only removes characters, so lowered text stays lowered. */
  lemma StripKeepsLower(s: string)
    requires forall i :: 0 <= i < |s| ==> !IsUpper(s[i])
    ensures var r := Strip(s); forall i :: 0 <= i < |r| ==> !IsUpper(r[i])
  {
    if !IsBlank(s) {
      StripBySpaces(s);
      var k, e := FirstNonSpace(s, 0), EndOfText(s, |s|);
      assert forall i :: 0 <= i < e - k ==> Strip(s)[i] == s[k + i];
    }
  }

  /** `strip` removes the surrounding whitespace and keeps the inner text intact:
      whatever text has no whitespace at either end comes back unchanged. */
  lemma StripExact(lead: string, mid: string, trail: string)
    requires IsBlank(lead) && IsBlank(trail)
    requires mid == [] || (!IsSpace(mid[0]) && !IsSpace(mid[|mid| - 1]))
    ensures Strip(lead + mid + trail) == mid
  {
    var s := lead + mid + trail;
    if mid == [] {
      assert IsBlank(s);
    } else {
      assert s[|lead|] == mid[0];
      FirstNonSpaceExact(s, 0, |lead|);
      assert s[|lead| + |mid| - 1] == mid[|mid| - 1];
      EndOfTextExact(s, |s|, |lead| + |mid|);
      assert s[|lead|..|lead| + |mid|] == mid;
    }
  }

  lemma FirstNonSpaceExact(s: string, from: nat, k: nat)
    requires from <= k <= |s|
    requires forall i :: from <= i < k ==> IsSpace(s[i])
    requires k == |s| || !IsSpace(s[k])
    ensures FirstNonSpace(s, from) == k
  {
  }

  lemma EndOfTextExact(s: string, upTo: nat, e: nat)
    requires e <= upTo <= |s|
    requires forall i :: e <= i < upTo ==> IsSpace(s[i])
    requires e == 0 || !IsSpace(s[e - 1])
    ensures EndOfText(s, upTo) == e
  {
  }

  /** Whitespace added around a string does not change what `strip` returns. */
  lemma StripAbsorbsBlank(lead: string, x: string, trail: string)
    requires IsBlank(lead) && IsBlank(trail)
    ensures Strip(lead + x + trail) == Strip(x)
  {
    if IsBlank(x) {
      BlankConcat(lead, x);
      BlankConcat(lead + x, trail);
    } else {
      StripAbsorbsBlankAroundText(lead, x, trail);
    }
  }

  lemma StripAbsorbsBlankAroundText(lead: string, x: string, trail: string)
    requires IsBlank(lead) && IsBlank(trail) && !IsBlank(x)
    ensures Strip(lead + x + trail) == Strip(x)
  {
    var k, e := FirstNonSpace(x, 0), EndOfText(x, |x|);
    StripBySpaces(x);
    var before, mid, after := x[..k], x[k..e], x[e..];
    assert x == before + mid + after;
    BlankConcat(lead, before);
    BlankConcat(after, trail);
    Regroup(lead, before, mid, after, trail);
    StripExact(lead + before, mid, after + trail);
  }

  /** Re-associating a five-part concatenation. */
  lemma Regroup(a: string, b: string, c: string, d: string, e: string)
    ensures a + (b + c + d) + e == (a + b) + c + (d + e)
  {
  }

  lemma BlankConcat(a: string, b: string)
    requires IsBlank(a) && IsBlank(b)
    ensures IsBlank(a + b)
  {
    assert forall i :: 0 <= i < |a + b| ==> (a + b)[i] == if i < |a| then a[i] else b[i - |a|];
  }

  /** Length of the run of non-space characters at the head of `s`. */
  function WordLength(s: string): (n: nat)
    ensures n <= |s|
    ensures forall i :: 0 <= i < n ==> !IsSpace(s[i])
    ensures n == |s| || IsSpace(s[n])
  {
    if s == [] || IsSpace(s[0]) then 0 else 1 + WordLength(s[1..])
  }

  /** `s.split()`: the maximal runs of non-space characters, in order;
      leading, trailing and repeated whitespace produce no empty tokens. */
  function Split(s: string): (words: seq<string>)
    ensures forall w :: w in words ==> IsWord(w)
    ensures words == [] <==> IsBlank(s)
    decreases |s|
  {
    if s == [] then
      []
    else if IsSpace(s[0]) then
      Split(s[1..])
    else
      var n := WordLength(s);
      var w := s[..n];
      assert IsWord(w);
      [w] + Split(s[n..])
  }

  /** `" ".join(words)` */
  function JoinWords(words: seq<string>): string {
    if words == [] then []
    else if |words| == 1 then words[0]
    else words[0] + " " + JoinWords(words[1..])
  }

  /** A word followed by whitespace (or by nothing) is split off as the first token. */
  lemma SplitFirstWord(w: string, rest: string)
    requires IsWord(w)
    requires rest == [] || IsSpace(rest[0])
    ensures Split(w + rest) == [w] + Split(rest)
  {
    var s := w + rest;
    assert s[|w|..] == rest;
    assert s[..|w|] == w;
    assert forall i :: 0 <= i < |w| ==> s[i] == w[i];
    assert WordLength(s) == |w|;
  }

  /** Whitespace in front of the text is ignored. */
  lemma SplitSkipsSpace(j: string)
    ensures Split(" " + j) == Split(j)
  {
    assert (" " + j)[1..] == j;
  }

  /** Splitting a single-space join of words gives the words back. */
  lemma {:induction false} SplitJoin(words: seq<string>)
    requires forall i :: 0 <= i < |words| ==> IsWord(words[i])
    ensures Split(JoinWords(words)) == words
  {
    if words == [] {
    } else if |words| == 1 {
      SplitSingleWord(words[0]);
      assert words == [words[0]];
    } else {
      var rest := words[1..];
      assert [words[0]] + rest == words;
      assert JoinWords(words) == words[0] + " " + JoinWords(rest);
      SplitJoin(rest);
      SplitAfterWord(words[0], JoinWords(rest), rest);
    }
  }

  lemma SplitSingleWord(w: string)
    requires IsWord(w)
    ensures Split(w) == [w]
  {
    assert w + [] == w;
    SplitFirstWord(w, []);
    assert Split([]) == [];
    assert [w] + [] == [w];
  }

  lemma SplitAfterWord(w: string, j: string, rest: seq<string>)
    requires IsWord(w)
    requires Split(j) == rest
    ensures Split(w + " " + j) == [w] + rest
  {
    assert w + " " + j == w + (" " + j);
    SplitFirstWord(w, " " + j);
    SplitSkipsSpace(j);
  }

  /** The words laid out in order, each followed by its own run of whitespace:
      `words[0] + seps[0] + words[1] + seps[1] + ...`. */
  function Layout(words: seq<string>, seps: seq<string>): string
    requires |seps| == |words|
  {
    if words == [] then [] else words[0] + seps[0] + Layout(words[1..], seps[1..])
  }

  /** Separators a `split()` sees between words: whitespace only, and non-empty
      everywhere except after the last word. */
  predicate Separators(words: seq<string>, seps: seq<string>) {
    |seps| == |words| &&
    (forall i :: 0 <= i < |seps| ==> IsBlank(seps[i])) &&
    (forall i :: 0 <= i < |seps| - 1 ==> seps[i] != [])
  }

  /** Leading whitespace of any kind and length is ignored. */
  lemma {:induction false} SplitBlankPrefix(b: string, j: string)
    requires IsBlank(b)
    ensures Split(b + j) == Split(j)
    decreases |b|
  {
    if b == [] {
      assert b + j == j;
    } else {
      assert (b + j)[0] == b[0];
      assert (b + j)[1..] == b[1..] + j;
      SplitBlankPrefix(b[1..], j);
    }
  }

  /** A word followed by a non-empty run of whitespace is split off as the
      first token, whatever the run holds. */
  lemma SplitWordThenBlank(w: string, sep: string, j: string)
    requires IsWord(w) && IsBlank(sep) && sep != []
    ensures Split(w + sep + j) == [w] + Split(j)
  {
    assert w + sep + j == w + (sep + j);
    assert (sep + j)[0] == sep[0];
    SplitFirstWord(w, sep + j);
    SplitBlankPrefix(sep, j);
  }

  lemma {:induction false} SplitLayout(words: seq<string>, seps: seq<string>)
    requires forall i :: 0 <= i < |words| ==> IsWord(words[i])
    requires Separators(words, seps)
    ensures Split(Layout(words, seps)) == words
  {
    if words != [] {
      var w, sep := words[0], seps[0];
      var j := Layout(words[1..], seps[1..]);
      assert Layout(words, seps) == w + sep + j;
      if sep == [] {
        assert j == [] && w + sep + j == w;
        SplitSingleWord(w);
      } else {
        SplitLayout(words[1..], seps[1..]);
        SplitWordThenBlank(w, sep, j);
        assert [w] + words[1..] == words;
      }
    }
  }

  /** `split()` returns exactly the words of any text made of words separated
      by whitespace runs (tabs, newlines, several spaces), with any leading and
      trailing whitespace. */
  lemma SplitWords(lead: string, words: seq<string>, seps: seq<string>)
    requires IsBlank(lead)
    requires forall i :: 0 <= i < |words| ==> IsWord(words[i])
    requires Separators(words, seps)
    ensures Split(lead + Layout(words, seps)) == words
  {
    SplitBlankPrefix(lead, Layout(words, seps));
    SplitLayout(words, seps);
  }
}
