/** Characters, case, substring search and the run-splitting shared by the
    tokenizer (`re.findall(r'\b\w+\b', ...)`) and Python's `str.split()`.
    Character classes are the ASCII part of Python's Unicode classes. */
module Text {

  /** Python's `\w`, restricted to ASCII: letters, digits and underscore. */
  predicate IsWordChar(c: char) {
    ('a' <= c <= 'z') || ('A' <= c <= 'Z') || ('0' <= c <= '9') || c == '_'
  }

  /** What `str.split()` treats as whitespace, restricted to ASCII:
      tab, line feed, vertical tab, form feed, carriage return, the four
      separator controls 0x1C-0x1F and space. */
  predicate IsSpace(c: char) {
    (9 <= c as int <= 13) || (28 <= c as int <= 32)
  }

  predicate NotSpace(c: char) {
    !IsSpace(c)
  }

  predicate IsUpper(c: char) {
    'A' <= c <= 'Z'
  }

  /** `str.lower()` on one character, ASCII only. */
  function LowerChar(c: char): (d: char)
    ensures !IsUpper(d)
    ensures IsWordChar(d) <==> IsWordChar(c)
    ensures IsSpace(d) <==> IsSpace(c)
    ensures !IsUpper(c) ==> d == c
    ensures IsUpper(c) ==> 'a' <= d <= 'z' && d as int - 'a' as int == c as int - 'A' as int
  {
    if IsUpper(c) then (c as int + 32) as char else c
  }

  function Lower(s: string): (r: string)
    ensures |r| == |s|
  {
    seq(|s|, i requires 0 <= i < |s| => LowerChar(s[i]))
  }

  ghost predicate NoUpper(s: string) {
    forall i :: 0 <= i < |s| ==> !IsUpper(s[i])
  }

  /** Lower-casing leaves a string without capitals, and is the identity on
      such a string (so it is idempotent). */
  lemma LowerSpec(s: string)
    ensures NoUpper(Lower(s))
    ensures NoUpper(s) ==> Lower(s) == s
    ensures Lower(Lower(s)) == Lower(s)
  {
    var l := Lower(s);
    assert forall i :: 0 <= i < |l| ==> l[i] == LowerChar(s[i]);
    assert Lower(l) == l by {
      forall i | 0 <= i < |l| ensures Lower(l)[i] == l[i] {
        assert Lower(l)[i] == LowerChar(l[i]);
      }
    }
    if NoUpper(s) {
      forall i | 0 <= i < |s| ensures l[i] == s[i] {
        assert l[i] == LowerChar(s[i]);
      }
    }
  }

  /** Lower-casing commutes with concatenation. */
  lemma LowerAppend(a: string, b: string)
    ensures Lower(a + b) == Lower(a) + Lower(b)
  {
  }

  // ---------------------------------------------------------------------
  // Substring search: Python's `w in text` on two strings.
  // ---------------------------------------------------------------------

  function Contains(text: string, w: string): bool
    decreases |text|
  {
    w <= text || (|text| > 0 && Contains(text[1..], w))
  }

  ghost predicate OccursAt(text: string, w: string, i: nat) {
    i + |w| <= |text| && text[i..i + |w|] == w
  }

  /** An occurrence of `w` as a contiguous slice is found by `Contains`. */
  lemma {:induction false} OccursContains(text: string, w: string, i: nat)
    requires OccursAt(text, w, i)
    ensures Contains(text, w)
    decreases i
  {
    if i == 0 {
      assert text[..|w|] == w;
    } else {
      assert text[1..][i - 1..i - 1 + |w|] == text[i..i + |w|];
      OccursContains(text[1..], w, i - 1);
    }
  }

  /** `Contains` finds exactly the occurrences of `w` as a contiguous slice. */
  lemma {:induction false} ContainsIffOccurs(text: string, w: string)
    ensures Contains(text, w) <==> exists i: nat :: OccursAt(text, w, i)
    decreases |text|
  {
    if exists i: nat :: OccursAt(text, w, i) {
      var i: nat :| OccursAt(text, w, i);
      OccursContains(text, w, i);
    }
    if Contains(text, w) {
      if w <= text {
        assert OccursAt(text, w, 0);
      } else {
        ContainsIffOccurs(text[1..], w);
        var i: nat :| OccursAt(text[1..], w, i);
        assert text[i + 1..i + 1 + |w|] == text[1..][i..i + |w|];
        assert OccursAt(text, w, i + 1);
      }
    }
  }

  lemma {:induction false} ContainsSlice(text: string, w: string, i: nat, j: nat)
    requires i <= j <= |text|
    requires Contains(text[i..j], w)
    ensures Contains(text, w)
  {
    ContainsIffOccurs(text[i..j], w);
    var k: nat :| OccursAt(text[i..j], w, k);
    assert k + |w| <= j - i;
    forall m | 0 <= m < |w| ensures text[i + k..i + k + |w|][m] == w[m] {
      assert text[i..j][k..k + |w|][m] == w[m];
    }
    assert text[i + k..i + k + |w|] == w;
    OccursContains(text, w, i + k);
  }

  /** Python's `any(word in text for word in words)`. */
  predicate ContainsAny(text: string, words: seq<string>) {
    exists w :: w in words && Contains(text, w)
  }

  // ---------------------------------------------------------------------
  // Maximal runs of a character class.
  // ---------------------------------------------------------------------

  ghost predicate AllIn(s: string, inRun: char -> bool) {
    forall i :: 0 <= i < |s| ==> inRun(s[i])
  }

  /** A well-formed run: non-empty and made only of characters of the class. */
  ghost predicate IsRun(w: string, inRun: char -> bool) {
    |w| > 0 && AllIn(w, inRun)
  }

  /** Length of the longest prefix of `s` made of characters of the class. */
  function LeadingRun(s: string, inRun: char -> bool): (n: nat)
    ensures n <= |s|
    ensures AllIn(s[..n], inRun)
    ensures n < |s| ==> !inRun(s[n])
  {
    if s == [] || !inRun(s[0]) then 0
    else
      var n := 1 + LeadingRun(s[1..], inRun);
      assert s[..n] == [s[0]] + s[1..][..n - 1];
      n
  }

  /** The maximal runs of class characters in `s`, left to right; every
      other character is a delimiter and is dropped. */
  function Runs(s: string, inRun: char -> bool): seq<string>
    decreases |s|
  {
    if s == [] then []
    else if !inRun(s[0]) then Runs(s[1..], inRun)
    else
      var n := LeadingRun(s, inRun);
      [s[..n]] + Runs(s[n..], inRun)
  }

  /** Every run is non-empty, made of class characters, and a substring of
      the input. */
  lemma {:induction false} RunsWellFormed(s: string, inRun: char -> bool)
    ensures forall w :: w in Runs(s, inRun) ==> IsRun(w, inRun) && Contains(s, w)
    decreases |s|
  {
    if s == [] {
    } else if !inRun(s[0]) {
      RunsWellFormed(s[1..], inRun);
      forall w | w in Runs(s[1..], inRun) ensures Contains(s, w) {
        assert s[1..|s|] == s[1..];
        ContainsSlice(s, w, 1, |s|);
      }
    } else {
      var n := LeadingRun(s, inRun);
      RunsWellFormed(s[n..], inRun);
      assert s[..n] <= s;
      forall w | w in Runs(s[n..], inRun) ensures Contains(s, w) {
        assert s[n..|s|] == s[n..];
        ContainsSlice(s, w, n, |s|);
      }
    }
  }

  lemma {:induction false} LeadingRunOfRun(w: string, inRun: char -> bool)
    requires AllIn(w, inRun)
    ensures LeadingRun(w, inRun) == |w|
    decreases |w|
  {
    if w != [] {
      LeadingRunOfRun(w[1..], inRun);
    }
  }

  /** A string that is one run splits into exactly itself. */
  lemma RunsOfRun(w: string, inRun: char -> bool)
    requires IsRun(w, inRun)
    ensures Runs(w, inRun) == [w]
  {
    LeadingRunOfRun(w, inRun);
    assert w[..|w|] == w;
    assert w[|w|..] == [];
  }

  lemma {:induction false} LeadingRunStopsAt(a: string, c: char, b: string, inRun: char -> bool)
    requires !inRun(c)
    ensures LeadingRun(a + [c] + b, inRun) == LeadingRun(a, inRun)
    decreases |a|
  {
    var s := a + [c] + b;
    if a == [] {
      assert s[0] == c;
    } else {
      assert s[0] == a[0];
      if inRun(a[0]) {
        assert s[1..] == a[1..] + [c] + b;
        LeadingRunStopsAt(a[1..], c, b, inRun);
      }
    }
  }

  /** A delimiter splits the runs: the runs of `a + [c] + b` are the runs of
      `a` followed by the runs of `b`. */
  lemma {:induction false} RunsSplit(a: string, c: char, b: string, inRun: char -> bool)
    requires !inRun(c)
    ensures Runs(a + [c] + b, inRun) == Runs(a, inRun) + Runs(b, inRun)
    decreases |a|
  {
    var s := a + [c] + b;
    if a == [] {
      assert s[1..] == b;
    } else if !inRun(a[0]) {
      assert s[1..] == a[1..] + [c] + b;
      RunsSplit(a[1..], c, b, inRun);
    } else {
      var n := LeadingRun(a, inRun);
      LeadingRunStopsAt(a, c, b, inRun);
      assert s[..n] == a[..n];
      assert s[n..] == a[n..] + [c] + b;
      RunsSplit(a[n..], c, b, inRun);
    }
  }

  /** `sep.join(words)` for a one-character separator. */
  function Join(words: seq<string>, sep: char): string {
    if |words| == 0 then []
    else if |words| == 1 then words[0]
    else words[0] + [sep] + Join(words[1..], sep)
  }

  /** Round trip: joining well-formed runs with a delimiter and splitting
      again gives the runs back. */
  lemma {:induction false} RunsOfJoin(words: seq<string>, sep: char, inRun: char -> bool)
    requires !inRun(sep)
    requires forall w :: w in words ==> IsRun(w, inRun)
    ensures Runs(Join(words, sep), inRun) == words
    decreases |words|
  {
    if |words| == 1 {
      RunsOfRun(words[0], inRun);
    } else if |words| > 1 {
      RunsOfRun(words[0], inRun);
      RunsOfJoin(words[1..], sep, inRun);
      RunsSplit(words[0], sep, Join(words[1..], sep), inRun);
    }
  }

  /** A string without class characters has no runs. */
  lemma {:induction false} RunsOfDelimiters(s: string, inRun: char -> bool)
    requires forall i :: 0 <= i < |s| ==> !inRun(s[i])
    ensures Runs(s, inRun) == []
    decreases |s|
  {
    if s != [] {
      RunsOfDelimiters(s[1..], inRun);
    }
  }

  function Concat(words: seq<string>): string {
    if words == [] then [] else words[0] + Concat(words[1..])
  }

  /** The characters of `s` that belong to the class, in order. */
  function ClassChars(s: string, inRun: char -> bool): string {
    if s == [] then []
    else (if inRun(s[0]) then [s[0]] else []) + ClassChars(s[1..], inRun)
  }

  lemma {:induction false} ClassCharsAppend(a: string, b: string, inRun: char -> bool)
    ensures ClassChars(a + b, inRun) == ClassChars(a, inRun) + ClassChars(b, inRun)
    decreases |a|
  {
    if a != [] {
      var s := a + b;
      assert s[0] == a[0];
      assert s[1..] == a[1..] + b;
      ClassCharsAppend(a[1..], b, inRun);
      assert ClassChars(s, inRun) == (if inRun(a[0]) then [a[0]] else []) + ClassChars(a[1..] + b, inRun);
    } else {
      assert a + b == b;
    }
  }

  lemma {:induction false} ClassCharsAll(s: string, inRun: char -> bool)
    requires AllIn(s, inRun)
    ensures ClassChars(s, inRun) == s
    decreases |s|
  {
    if s != [] {
      ClassCharsAll(s[1..], inRun);
    }
  }

  /** Read left to right, the runs hold every class character of the input,
      in input order, and nothing else. */
  lemma {:induction false} RunsInOrder(s: string, inRun: char -> bool)
    ensures Concat(Runs(s, inRun)) == ClassChars(s, inRun)
    decreases |s|
  {
    if s == [] {
    } else if !inRun(s[0]) {
      RunsInOrder(s[1..], inRun);
    } else {
      var n := LeadingRun(s, inRun);
      RunsInOrder(s[n..], inRun);
      assert s == s[..n] + s[n..];
      ClassCharsAppend(s[..n], s[n..], inRun);
      ClassCharsAll(s[..n], inRun);
      assert ([s[..n]] + Runs(s[n..], inRun))[1..] == Runs(s[n..], inRun);
    }
  }

  // ---------------------------------------------------------------------
  // Slices and subsequences.
  // ---------------------------------------------------------------------

  /** Python's `s[:n]`: the first `n` elements, or all of `s` if shorter. */
  function Take<T>(s: seq<T>, n: nat): (r: seq<T>)
    ensures |r| == if |s| <= n then |s| else n
    ensures r <= s
  {
    if |s| <= n then s else s[..n]
  }

  /** `s` is obtained from `t` by deleting elements, without reordering. */
  ghost predicate IsSubsequence<T>(s: seq<T>, t: seq<T>)
    decreases |t|
  {
    if s == [] then true
    else if t == [] then false
    else (s[0] == t[0] && IsSubsequence(s[1..], t[1..])) || IsSubsequence(s, t[1..])
  }

  lemma {:induction false} SubsequenceExtend<T>(s: seq<T>, t: seq<T>, x: T, keep: bool)
    requires IsSubsequence(s, t)
    ensures IsSubsequence(if keep then s + [x] else s, t + [x])
    decreases |t|
  {
    var s' := if keep then s + [x] else s;
    var t' := t + [x];
    if t == [] {
      if keep {
        assert s == [];
        assert s'[1..] == [] && t'[1..] == [];
      }
    } else if s == [] {
      if keep {
        assert t'[1..] == t[1..] + [x];
        SubsequenceExtend(s, t[1..], x, keep);
      }
    } else {
      assert t'[1..] == t[1..] + [x];
      if s[0] == t[0] && IsSubsequence(s[1..], t[1..]) {
        SubsequenceExtend(s[1..], t[1..], x, keep);
        if keep {
          assert s'[1..] == s[1..] + [x];
        }
      } else {
        SubsequenceExtend(s, t[1..], x, keep);
      }
    }
  }

  /** A prefix of a subsequence is a subsequence. */
  lemma {:induction false} SubsequencePrefix<T>(s: seq<T>, t: seq<T>, n: nat)
    requires IsSubsequence(s, t)
    requires n <= |s|
    ensures IsSubsequence(s[..n], t)
    decreases |t|
  {
    if n > 0 {
      assert s != [] && t != [];
      if s[0] == t[0] && IsSubsequence(s[1..], t[1..]) {
        SubsequencePrefix(s[1..], t[1..], n - 1);
        assert s[..n][1..] == s[1..][..n - 1];
      } else {
        SubsequencePrefix(s, t[1..], n);
      }
    }
  }
}
