/** `simple_search(query, emails)`: the search the web service falls back
    on. An email matches when some whitespace-separated word of the
    lower-cased query occurs verbatim in its lower-cased text; the first
    five matches come back, in input order. */
module Fallback {
  import opened Text
  import opened Mail
  import opened Tokens

  const MaxResults: nat := 5

  /** `any(word in text for word in words)` for the email's search text. */
  predicate Matches(words: seq<string>, e: Email) {
    ContainsAny(SearchText(e), words)
  }

  /** The emails that match, in input order. */
  function Matching(words: seq<string>, emails: seq<Email>): seq<Email> {
    if emails == [] then []
    else
      var e := emails[|emails| - 1];
      Matching(words, emails[..|emails| - 1]) + (if Matches(words, e) then [e] else [])
  }

  /** What `simple_search(query, emails)` returns. */
  function SimpleResults(query: string, emails: seq<Email>): seq<Email> {
    Take(Matching(Split(Lower(query)), emails), MaxResults)
  }

  method SimpleSearch(query: string, emails: seq<Email>) returns (found: seq<Email>)
    ensures found == SimpleResults(query, emails)
  {
    var queryLower := Lower(query);
    var results: seq<Email> := [];
    for i := 0 to |emails|
      invariant results == Matching(Split(queryLower), emails[..i])
    {
      var text := SearchText(emails[i]);
      if ContainsAny(text, Split(queryLower)) {
        results := results + [emails[i]];
      }
      assert emails[..i + 1][..i] == emails[..i];
    }
    assert emails[..|emails|] == emails;
    found := Take(results, MaxResults);
  }

  /** The matches keep the input order: they are a subsequence of the
      input. */
  lemma {:induction false} MatchingIsSubsequence(words: seq<string>, emails: seq<Email>)
    ensures IsSubsequence(Matching(words, emails), emails)
    decreases |emails|
  {
    if emails != [] {
      var init, e := emails[..|emails| - 1], emails[|emails| - 1];
      MatchingIsSubsequence(words, init);
      SubsequenceExtend(Matching(words, init), init, e, Matches(words, e));
      assert init + [e] == emails;
      assert Matching(words, init) + [] == Matching(words, init);
    }
  }

  /** Every matching email is kept as often as it occurs in the input, and
      no other email is. */
  lemma {:induction false} MatchingCount(words: seq<string>, emails: seq<Email>, x: Email)
    ensures multiset(Matching(words, emails))[x] == if Matches(words, x) then multiset(emails)[x] else 0
    decreases |emails|
  {
    if emails != [] {
      var init, e := emails[..|emails| - 1], emails[|emails| - 1];
      MatchingCount(words, init, x);
      assert emails == init + [e];
    }
  }

  /** `simple_search` returns the first five matches in input order, or all
      of them when there are fewer; each returned email matches. */
  lemma SimpleSearchSpec(query: string, emails: seq<Email>)
    ensures var words := Split(Lower(query));
            var r := SimpleResults(query, emails);
            && |r| <= MaxResults
            && IsSubsequence(r, emails)
            && r <= Matching(words, emails)
            && (|r| == MaxResults || r == Matching(words, emails))
            && (forall e :: e in r ==> Matches(words, e))
  {
    var words := Split(Lower(query));
    var m := Matching(words, emails);
    var r := SimpleResults(query, emails);
    MatchingIsSubsequence(words, emails);
    SubsequencePrefix(m, emails, |r|);
    assert r == m[..|r|];
    forall e | e in r ensures Matches(words, e) {
      MatchingCount(words, emails, e);
      assert e in multiset(m);
    }
  }

  /** An email that matches is returned unless five earlier matches
      already filled the result. */
  lemma MatchFound(query: string, emails: seq<Email>, k: nat)
    requires k < |emails| && Matches(Split(Lower(query)), emails[k])
    ensures emails[k] in SimpleResults(query, emails) || |SimpleResults(query, emails)| == MaxResults
  {
    var words := Split(Lower(query));
    SimpleSearchSpec(query, emails);
    MatchingCount(words, emails, emails[k]);
    assert emails[k] in multiset(emails);
    assert emails[k] in multiset(Matching(words, emails));
  }

  /** An empty or whitespace-only query finds nothing. */
  lemma BlankQueryFindsNothing(query: string, emails: seq<Email>)
    requires forall i :: 0 <= i < |query| ==> IsSpace(query[i])
    ensures SimpleResults(query, emails) == []
  {
    var lowered := Lower(query);
    forall i | 0 <= i < |lowered| ensures IsSpace(lowered[i]) {
      assert lowered[i] == LowerChar(query[i]);
    }
    SplitBlank(lowered);
    NoWordsNoMatch(emails);
  }

  lemma {:induction false} NoWordsNoMatch(emails: seq<Email>)
    ensures Matching([], emails) == []
    decreases |emails|
  {
    if emails != [] {
      NoWordsNoMatch(emails[..|emails| - 1]);
    }
  }
}
