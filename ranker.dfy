/** `search_emails(query, emails)`: score every email against the query,
    keep the candidates, sort them stably by score (highest first) and pick
    the top of the strong tier, or else the top of all candidates.

    The scores are real numbers. `math.sqrt` and
    `SequenceMatcher(None, a, b).ratio()` are parameters (`sqrt`, `ratio`).
    The selection (`Candidates`, `SortedByScore`, `Tiers`) is stated for any
    sequence of judged emails (an email, a score, a keep verdict), and
    `JudgeAll` gives the one `search_emails` computes. */
module Ranker {
  import opened Text
  import opened Mail
  import opened Tokens
  import opened Cosine

  /** The policy constants of the ranking. */
  const CosineWeight: real := 0.75
  const RatioWeight: real := 0.25
  const KeepThreshold: real := 0.25
  const StrongThreshold: real := 0.35
  const StrongLimit: nat := 3
  const WeakLimit: nat := 2

  /** `combined_score` of one email, for a query that is already
      lower-cased. */
  function Score(query: string, text: string, sqrt: nat -> real, ratio: (string, string) -> real): real {
    CosineSimilarity(query, text, sqrt) * CosineWeight + ratio(query, text) * RatioWeight
  }

  /** The inclusion test: a high enough score, or some query keyword found
      verbatim (not only at word boundaries) in the email's text. */
  predicate Keep(query: string, text: string, sqrt: nat -> real, ratio: (string, string) -> real) {
    Score(query, text, sqrt, ratio) > KeepThreshold || ContainsAny(text, Tokenize(query))
  }

  /** One email with what the loop body decides about it: its combined
      score and whether it is kept. */
  datatype Judged = Judged(email: Email, score: real, keep: bool)

  /** The judgements of `search_emails` for the lower-cased query `query`,
      one per email in input order. */
  function JudgeAll(query: string, emails: seq<Email>, sqrt: nat -> real, ratio: (string, string) -> real): (js: seq<Judged>)
    ensures |js| == |emails|
  {
    if emails == [] then []
    else
      var e := emails[|emails| - 1];
      JudgeAll(query, emails[..|emails| - 1], sqrt, ratio)
      + [Judged(e, Score(query, SearchText(e), sqrt, ratio), Keep(query, SearchText(e), sqrt, ratio))]
  }

  /** The `k`-th judgement is the `k`-th email with its own score and the
      inclusion test spelt out. */
  lemma {:induction false} JudgeAllAt(query: string, emails: seq<Email>, k: nat, sqrt: nat -> real, ratio: (string, string) -> real)
    requires k < |emails|
    ensures var text := SearchText(emails[k]);
            JudgeAll(query, emails, sqrt, ratio)[k]
              == Judged(emails[k], Score(query, text, sqrt, ratio),
                        Score(query, text, sqrt, ratio) > KeepThreshold || ContainsAny(text, Tokenize(query)))
    decreases |emails|
  {
    if k < |emails| - 1 {
      JudgeAllAt(query, emails[..|emails| - 1], k, sqrt, ratio);
      assert emails[..|emails| - 1][k] == emails[k];
    }
  }

  /** Every judgement is its email's own score and inclusion test. */
  lemma JudgeAllSpec(query: string, emails: seq<Email>, sqrt: nat -> real, ratio: (string, string) -> real)
    ensures forall k :: 0 <= k < |emails| ==>
              JudgeAll(query, emails, sqrt, ratio)[k]
                == Judged(emails[k], Score(query, SearchText(emails[k]), sqrt, ratio), Keep(query, SearchText(emails[k]), sqrt, ratio))
  {
    forall k | 0 <= k < |emails|
      ensures JudgeAll(query, emails, sqrt, ratio)[k]
                == Judged(emails[k], Score(query, SearchText(emails[k]), sqrt, ratio), Keep(query, SearchText(emails[k]), sqrt, ratio))
    {
      JudgeAllAt(query, emails, k, sqrt, ratio);
    }
  }

  /** One `(combined_score, email)` pair of `results`. `pos` is the email's
      index in the input list and stands for the identity of the dict
      object that the source returns. */
  datatype Candidate = Candidate(score: real, pos: nat, email: Email)

  function CandidateAt(js: seq<Judged>, k: nat): Candidate
    requires k < |js|
  {
    Candidate(js[k].score, k, js[k].email)
  }

  /** `results` once the loop has looked at the first `n` emails. */
  function Candidates(js: seq<Judged>, n: nat): seq<Candidate>
    requires n <= |js|
  {
    if n == 0 then []
    else
      Candidates(js, n - 1)
      + (if js[n - 1].keep then [CandidateAt(js, n - 1)] else [])
  }

  /** Inserts `c` into a list sorted by descending score: before the first
      element scoring lower than `c`, so after every element scoring at
      least as high. */
  function InsertByScore(sorted: seq<Candidate>, c: Candidate): seq<Candidate> {
    if sorted == [] then [c]
    else if sorted[0].score < c.score then [c] + sorted
    else [sorted[0]] + InsertByScore(sorted[1..], c)
  }

  /** `sorted(results, key=lambda x: x[0], reverse=True)`, as an insertion
      sort that takes the elements in input order. */
  function SortedByScore(results: seq<Candidate>): seq<Candidate> {
    if results == [] then []
    else InsertByScore(SortedByScore(results[..|results| - 1]), results[|results| - 1])
  }

  /** `[r for r in results if r[0] > 0.35]` */
  function StrongOnly(results: seq<Candidate>): (strong: seq<Candidate>)
    ensures |strong| <= |results|
  {
    if results == [] then []
    else (if results[0].score > StrongThreshold then [results[0]] else []) + StrongOnly(results[1..])
  }

  /** `strong_results[:3] if strong_results else results[:2]` */
  function Tiers(sorted: seq<Candidate>): seq<Candidate> {
    var strong := StrongOnly(sorted);
    if strong != [] then Take(strong, StrongLimit) else Take(sorted, WeakLimit)
  }

  /** The pairs the search ends with, for any judgement of the emails. */
  function Select(js: seq<Judged>): seq<Candidate> {
    Tiers(SortedByScore(Candidates(js, |js|)))
  }

  /** The pairs `search_emails(query, emails)` ends with. */
  function Ranking(query: string, emails: seq<Email>, sqrt: nat -> real, ratio: (string, string) -> real): seq<Candidate> {
    Select(JudgeAll(Lower(query), emails, sqrt, ratio))
  }

  /** `[r[1] for r in final_results]` */
  function EmailsOf(final: seq<Candidate>): seq<Email> {
    seq(|final|, i requires 0 <= i < |final| => final[i].email)
  }

  // ---------------------------------------------------------------------
  // The source's code.
  // ---------------------------------------------------------------------

  method SearchEmails(query: string, emails: seq<Email>, sqrt: nat -> real, ratio: (string, string) -> real)
    returns (found: seq<Email>)
    ensures found == EmailsOf(Ranking(query, emails, sqrt, ratio))
  {
    var q := Lower(query);
    var keywords := Tokenize(q);
    var results := ScoreAll(q, keywords, emails, sqrt, ratio);
    var sorted := SortByScore(results);
    var strong := StrongOnly(sorted);
    var final := if strong != [] then Take(strong, StrongLimit) else Take(sorted, WeakLimit);
    found := EmailsOf(final);
  }

  /** The scoring loop: `results` in input order. */
  method ScoreAll(q: string, keywords: seq<string>, emails: seq<Email>, sqrt: nat -> real, ratio: (string, string) -> real)
    returns (results: seq<Candidate>)
    requires keywords == Tokenize(q)
    ensures results == Candidates(JudgeAll(q, emails, sqrt, ratio), |emails|)
  {
    ghost var js := JudgeAll(q, emails, sqrt, ratio);
    results := [];
    for i := 0 to |emails|
      invariant results == Candidates(js, i)
    {
      var combined, keep := ScoreEmail(q, keywords, emails, i, sqrt, ratio);
      if keep {
        results := results + [Candidate(combined, i, emails[i])];
      }
    }
  }

  /** The body of the scoring loop for the `k`-th email: its combined
      score and whether it is kept. */
  method ScoreEmail(q: string, keywords: seq<string>, emails: seq<Email>, k: nat, sqrt: nat -> real, ratio: (string, string) -> real)
    returns (combined: real, keep: bool)
    requires keywords == Tokenize(q) && k < |emails|
    ensures JudgeAll(q, emails, sqrt, ratio)[k] == Judged(emails[k], combined, keep)
  {
    var text := SearchText(emails[k]);
    var cosSim := CosineSimilarity(q, text, sqrt);
    var fuzz := ratio(q, text);
    combined := cosSim * CosineWeight + fuzz * RatioWeight;
    keep := combined > KeepThreshold || ContainsAny(text, keywords);
    JudgeAllAt(q, emails, k, sqrt, ratio);
  }

  /** The stable descending sort, as an insertion sort. */
  method SortByScore(results: seq<Candidate>) returns (sorted: seq<Candidate>)
    ensures sorted == SortedByScore(results)
  {
    sorted := [];
    for i := 0 to |results|
      invariant sorted == SortedByScore(results[..i])
    {
      var c := results[i];
      var p := 0;
      while p < |sorted| && sorted[p].score >= c.score
        invariant 0 <= p <= |sorted|
        invariant InsertByScore(sorted, c) == sorted[..p] + InsertByScore(sorted[p..], c)
      {
        InsertStep(sorted, p, c);
        p := p + 1;
      }
      InsertStop(sorted, p, c);
      assert results[..i + 1][..i] == results[..i];
      assert SortedByScore(results[..i + 1]) == InsertByScore(sorted, c);
      sorted := sorted[..p] + [c] + sorted[p..];
    }
    assert results[..|results|] == results;
  }

  lemma InsertStep(sorted: seq<Candidate>, p: nat, c: Candidate)
    requires p < |sorted| && sorted[p].score >= c.score
    ensures sorted[..p] + InsertByScore(sorted[p..], c) == sorted[..p + 1] + InsertByScore(sorted[p + 1..], c)
  {
    var t := sorted[p..];
    assert t[0] == sorted[p] && t[1..] == sorted[p + 1..];
    var rest := InsertByScore(sorted[p + 1..], c);
    assert InsertByScore(t, c) == [sorted[p]] + rest;
    assert sorted[..p + 1] == sorted[..p] + [sorted[p]];
    assert sorted[..p] + ([sorted[p]] + rest) == (sorted[..p] + [sorted[p]]) + rest;
  }

  lemma InsertStop(sorted: seq<Candidate>, p: nat, c: Candidate)
    requires p <= |sorted| && (p == |sorted| || sorted[p].score < c.score)
    requires InsertByScore(sorted, c) == sorted[..p] + InsertByScore(sorted[p..], c)
    ensures InsertByScore(sorted, c) == sorted[..p] + [c] + sorted[p..]
  {
    assert InsertByScore(sorted[p..], c) == [c] + sorted[p..];
  }

  // ---------------------------------------------------------------------
  // Order.
  // ---------------------------------------------------------------------

  /** `x` comes before `y` in the sorted list: a higher score, or the same
      score and an earlier input position. */
  predicate RankedBefore(x: Candidate, y: Candidate) {
    x.score > y.score || (x.score == y.score && x.pos < y.pos)
  }

  /** Ordered by `RankedBefore`, and no input position twice. */
  ghost predicate Ranked(s: seq<Candidate>) {
    forall i, j :: 0 <= i < j < |s| ==> RankedBefore(s[i], s[j]) && s[i].pos != s[j].pos
  }

  ghost predicate PositionsIncrease(s: seq<Candidate>) {
    forall i, j :: 0 <= i < j < |s| ==> s[i].pos < s[j].pos
  }

  /** The loop collects exactly the emails judged worth keeping, in input
      order, each with its own score and position. */
  lemma {:induction false} CandidatesSpec(js: seq<Judged>, n: nat)
    requires n <= |js|
    ensures var cs := Candidates(js, n);
            && PositionsIncrease(cs)
            && (forall c :: c in cs ==>
                  c.pos < n && c == CandidateAt(js, c.pos) && js[c.pos].keep)
            && (forall k :: 0 <= k < n ==>
                  (CandidateAt(js, k) in cs <==> js[k].keep))
  {
    if n > 0 {
      CandidatesSpec(js, n - 1);
      var prev := Candidates(js, n - 1);
      var cs := Candidates(js, n);
      var last := CandidateAt(js, n - 1);
      assert last !in prev;
      forall k | 0 <= k < n - 1
        ensures CandidateAt(js, k) in cs <==> CandidateAt(js, k) in prev
      {
        assert CandidateAt(js, k) != last;
      }
    }
  }

  /** The loop builds `results` in increasing input position. */
  lemma {:induction false} CandidatesIncrease(js: seq<Judged>, n: nat)
    requires n <= |js|
    ensures PositionsIncrease(Candidates(js, n))
    ensures forall c :: c in Candidates(js, n) ==> c.pos < n
  {
    if n > 0 {
      CandidatesIncrease(js, n - 1);
    }
  }

  lemma {:induction false} InsertByScorePerm(sorted: seq<Candidate>, c: Candidate)
    ensures multiset(InsertByScore(sorted, c)) == multiset(sorted) + multiset{c}
    decreases |sorted|
  {
    if sorted != [] && sorted[0].score >= c.score {
      InsertByScorePerm(sorted[1..], c);
      assert sorted == [sorted[0]] + sorted[1..];
    }
  }

  lemma {:induction false} InsertByScoreRanked(sorted: seq<Candidate>, c: Candidate)
    requires Ranked(sorted)
    requires forall x :: x in sorted ==> x.pos < c.pos
    ensures Ranked(InsertByScore(sorted, c))
    decreases |sorted|
  {
    if sorted != [] && sorted[0].score >= c.score {
      var rest := InsertByScore(sorted[1..], c);
      InsertByScoreRanked(sorted[1..], c);
      InsertByScorePerm(sorted[1..], c);
      var r := [sorted[0]] + rest;
      forall j | 0 < j < |r| ensures RankedBefore(sorted[0], r[j]) && sorted[0].pos != r[j].pos {
        assert r[j] in multiset(rest);
        if r[j] != c {
          assert r[j] in sorted[1..];
          var m :| 0 <= m < |sorted[1..]| && sorted[1..][m] == r[j];
          assert sorted[m + 1] == r[j];
        }
      }
    }
  }

  /** The insertion sort is a permutation of its input and, when the input
      positions increase (as the loop builds them), orders it by score,
      highest first, keeping input order among equal scores. */
  lemma {:induction false} SortedByScoreSpec(results: seq<Candidate>)
    requires PositionsIncrease(results)
    ensures multiset(SortedByScore(results)) == multiset(results)
    ensures Ranked(SortedByScore(results))
    decreases |results|
  {
    if results != [] {
      var init, last := results[..|results| - 1], results[|results| - 1];
      SortedByScoreSpec(init);
      var s := SortedByScore(init);
      InsertByScorePerm(s, last);
      forall x | x in s ensures x.pos < last.pos {
        assert x in multiset(init);
        var m :| 0 <= m < |init| && init[m] == x;
      }
      InsertByScoreRanked(s, last);
      assert results == init + [last];
    }
  }

  lemma {:induction false} StrongOnlyMembers(s: seq<Candidate>)
    ensures forall c :: c in StrongOnly(s) <==> c in s && c.score > StrongThreshold
    decreases |s|
  {
    if s != [] {
      StrongOnlyMembers(s[1..]);
      assert forall c :: c in s <==> c == s[0] || c in s[1..];
    }
  }

  lemma {:induction false} StrongOnlyNone(s: seq<Candidate>)
    requires forall x :: x in s ==> x.score <= StrongThreshold
    ensures StrongOnly(s) == []
    decreases |s|
  {
    if s != [] {
      assert s[0] in s;
      StrongOnlyNone(s[1..]);
    }
  }

  /** In a sorted list the strong candidates form a prefix. */
  lemma {:induction false} StrongIsPrefix(s: seq<Candidate>)
    requires Ranked(s)
    ensures StrongOnly(s) == s[..|StrongOnly(s)|]
    decreases |s|
  {
    if s != [] {
      StrongIsPrefix(s[1..]);
      if s[0].score <= StrongThreshold {
        assert forall x :: x in s[1..] ==> x.score <= StrongThreshold by {
          forall x | x in s[1..] ensures x.score <= StrongThreshold {
            var m :| 0 <= m < |s[1..]| && s[1..][m] == x;
            assert RankedBefore(s[0], s[m + 1]);
          }
        }
        StrongOnlyNone(s[1..]);
      } else {
        assert s[..|StrongOnly(s)|] == [s[0]] + s[1..][..|StrongOnly(s[1..])|];
      }
    }
  }

  /** The sorted candidate list is ordered and a permutation of the
      candidates. */
  lemma SortedCandidates(js: seq<Judged>)
    ensures var cs := Candidates(js, |js|);
            Ranked(SortedByScore(cs)) && multiset(SortedByScore(cs)) == multiset(cs)
  {
    CandidatesIncrease(js, |js|);
    SortedByScoreSpec(Candidates(js, |js|));
  }

  /** The final pairs are the first ones of the sorted candidate list. */
  lemma SelectIsPrefix(js: seq<Judged>)
    ensures var sorted := SortedByScore(Candidates(js, |js|));
            var r := Select(js);
            && r == sorted[..|r|]
            && Ranked(sorted)
            && multiset(sorted) == multiset(Candidates(js, |js|))
  {
    SortedCandidates(js);
    StrongIsPrefix(SortedByScore(Candidates(js, |js|)));
  }

  // ---------------------------------------------------------------------
  // What the selection returns.
  // ---------------------------------------------------------------------

  ghost predicate IsCandidate(js: seq<Judged>, k: int) {
    0 <= k < |js| && js[k].keep
  }

  ghost predicate IsStrong(js: seq<Judged>, k: int) {
    IsCandidate(js, k) && js[k].score > StrongThreshold
  }

  lemma SortedMembers(js: seq<Judged>)
    ensures var sorted := SortedByScore(Candidates(js, |js|));
            && (forall c :: c in sorted ==>
                  IsCandidate(js, c.pos) && c == CandidateAt(js, c.pos))
            && (forall k :: IsCandidate(js, k) ==> CandidateAt(js, k) in sorted)
  {
    var cs := Candidates(js, |js|);
    CandidatesSpec(js, |js|);
    SortedCandidates(js);
    var sorted := SortedByScore(cs);
    forall c | c in sorted ensures c in cs {
      assert c in multiset(sorted);
    }
    forall k | IsCandidate(js, k) ensures CandidateAt(js, k) in sorted {
      assert CandidateAt(js, k) in multiset(cs);
    }
  }

  /** At most three pairs come back, each an input email judged worth
      keeping, with its own score. */
  lemma SelectSound(js: seq<Judged>)
    ensures var r := Select(js);
            && |r| <= StrongLimit
            && forall i :: 0 <= i < |r| ==>
                 IsCandidate(js, r[i].pos) && r[i] == CandidateAt(js, r[i].pos)
  {
    SelectIsPrefix(js);
    SortedMembers(js);
    var sorted := SortedByScore(Candidates(js, |js|));
    var r := Select(js);
    forall i | 0 <= i < |r|
      ensures IsCandidate(js, r[i].pos) && r[i] == CandidateAt(js, r[i].pos)
    {
      assert r[i] == sorted[i];
      assert sorted[i] in sorted;
    }
  }

  /** The result is ordered by score, highest first; equal scores keep
      their input order; no input email appears twice. */
  lemma SelectOrdered(js: seq<Judged>)
    ensures var r := Select(js);
            && (forall i, j :: 0 <= i < j < |r| ==> r[i].score >= r[j].score)
            && (forall i, j :: 0 <= i < j < |r| && r[i].score == r[j].score ==> r[i].pos < r[j].pos)
            && (forall i, j :: 0 <= i < j < |r| ==> r[i].pos != r[j].pos)
  {
    SelectIsPrefix(js);
    var sorted := SortedByScore(Candidates(js, |js|));
    PrefixRanked(sorted, |Select(js)|);
    RankedOrder(Select(js));
  }

  lemma PrefixRanked(s: seq<Candidate>, n: nat)
    requires Ranked(s) && n <= |s|
    ensures Ranked(s[..n])
  {
    forall i, j | 0 <= i < j < n ensures RankedBefore(s[..n][i], s[..n][j]) && s[..n][i].pos != s[..n][j].pos {
      assert s[..n][i] == s[i] && s[..n][j] == s[j];
    }
  }

  lemma RankedOrder(r: seq<Candidate>)
    requires Ranked(r)
    ensures forall i, j :: 0 <= i < j < |r| ==> r[i].score >= r[j].score
    ensures forall i, j :: 0 <= i < j < |r| && r[i].score == r[j].score ==> r[i].pos < r[j].pos
    ensures forall i, j :: 0 <= i < j < |r| ==> r[i].pos != r[j].pos
  {
    forall i, j | 0 <= i < j < |r| ensures r[i].score >= r[j].score && r[i].pos != r[j].pos {
      assert RankedBefore(r[i], r[j]);
    }
  }

  /** Every candidate left out ranks below every pair returned. */
  lemma SelectTakesTheTop(js: seq<Judged>)
    ensures var r := Select(js);
            forall k, i :: IsCandidate(js, k) && CandidateAt(js, k) !in r && 0 <= i < |r|
                           ==> RankedBefore(r[i], CandidateAt(js, k))
  {
    SelectIsPrefix(js);
    SortedMembers(js);
    var sorted := SortedByScore(Candidates(js, |js|));
    var r := Select(js);
    forall k, i | IsCandidate(js, k) && CandidateAt(js, k) !in r && 0 <= i < |r|
      ensures RankedBefore(r[i], CandidateAt(js, k))
    {
      var c := CandidateAt(js, k);
      var j :| 0 <= j < |sorted| && sorted[j] == c;
      assert forall m :: 0 <= m < |r| ==> r[m] == sorted[m] && r[m] in r;
      assert r[i] == sorted[i];
    }
  }

  /** When some candidate scores above 0.35, only such candidates come
      back: three of them, or all of them if there are fewer. */
  lemma SelectStrongTier(js: seq<Judged>)
    requires exists k :: IsStrong(js, k)
    ensures var r := Select(js);
            && r != []
            && (forall i :: 0 <= i < |r| ==> r[i].score > StrongThreshold)
            && (|r| == StrongLimit
                || forall k :: IsStrong(js, k) ==> CandidateAt(js, k) in r)
  {
    SortedMembers(js);
    var sorted := SortedByScore(Candidates(js, |js|));
    var strong := StrongOnly(sorted);
    StrongOnlyMembers(sorted);
    var k0 :| IsStrong(js, k0);
    assert CandidateAt(js, k0) in strong;
    var r := Select(js);
    assert r == Take(strong, StrongLimit);
    forall i | 0 <= i < |r| ensures r[i].score > StrongThreshold {
      assert r[i] in strong;
    }
  }

  /** When no candidate scores above 0.35, the first two candidates come
      back, or all of them if there are fewer. */
  lemma SelectWeakTier(js: seq<Judged>)
    requires forall k :: !IsStrong(js, k)
    ensures var r := Select(js);
            && |r| <= WeakLimit
            && (|r| == WeakLimit
                || forall k :: IsCandidate(js, k) ==> CandidateAt(js, k) in r)
  {
    SortedMembers(js);
    var sorted := SortedByScore(Candidates(js, |js|));
    forall c | c in sorted ensures c.score <= StrongThreshold {
      assert !IsStrong(js, c.pos);
    }
    StrongOnlyNone(sorted);
  }

  // ---------------------------------------------------------------------
  // Scores and scenarios of `search_emails`.
  // ---------------------------------------------------------------------

  ghost predicate IsRatio(ratio: (string, string) -> real) {
    forall a, b :: 0.0 <= ratio(a, b) <= 1.0
  }

  /** With the library functions in their ranges, the combined score lies
      in [0, 1]. */
  lemma ScoreRange(query: string, text: string, sqrt: nat -> real, ratio: (string, string) -> real)
    requires IsSqrt(sqrt) && IsRatio(ratio)
    ensures 0.0 <= Score(query, text, sqrt, ratio) <= 1.0
  {
    CosineRange(query, text, sqrt);
    assert 0.0 <= ratio(query, text) <= 1.0;
  }

  /** Every returned email is an input email that passed the inclusion
      test, with its own combined score; at most three come back, the
      higher scores first. */
  lemma RankingSound(query: string, emails: seq<Email>, sqrt: nat -> real, ratio: (string, string) -> real)
    ensures var r := Ranking(query, emails, sqrt, ratio);
            && |r| <= StrongLimit
            && |EmailsOf(r)| == |r|
            && (forall i :: 0 <= i < |r| ==>
                  && r[i].pos < |emails|
                  && EmailsOf(r)[i] == emails[r[i].pos]
                  && Keep(Lower(query), SearchText(emails[r[i].pos]), sqrt, ratio)
                  && r[i].score == Score(Lower(query), SearchText(emails[r[i].pos]), sqrt, ratio))
            && (forall i, j :: 0 <= i < j < |r| ==> r[i].score >= r[j].score)
  {
    var js := JudgeAll(Lower(query), emails, sqrt, ratio);
    JudgeAllSpec(Lower(query), emails, sqrt, ratio);
    SelectSound(js);
    SelectOrdered(js);
  }

  /** No email passes the inclusion test: nothing comes back. */
  lemma NoCandidateNoResult(query: string, emails: seq<Email>, sqrt: nat -> real, ratio: (string, string) -> real)
    requires forall k :: 0 <= k < |emails| ==> !Keep(Lower(query), SearchText(emails[k]), sqrt, ratio)
    ensures Ranking(query, emails, sqrt, ratio) == []
  {
    var js := JudgeAll(Lower(query), emails, sqrt, ratio);
    JudgeAllSpec(Lower(query), emails, sqrt, ratio);
    SelectSound(js);
    var r := Ranking(query, emails, sqrt, ratio);
    assert |r| == 0 || IsCandidate(js, r[0].pos);
  }

  /** A query equal to an email's whole text (with at least one token)
      makes that email strong, so the result is non-empty, all strong, and
      led by an email scoring at least as much as it does. */
  lemma ExactQueryIsStrong(query: string, emails: seq<Email>, k: nat, sqrt: nat -> real, ratio: (string, string) -> real)
    requires IsSqrt(sqrt) && IsRatio(ratio)
    requires k < |emails| && Lower(query) == SearchText(emails[k])
    requires Tokenize(query) != []
    ensures var r := Ranking(query, emails, sqrt, ratio);
            && r != []
            && (forall i :: 0 <= i < |r| ==> r[i].score > StrongThreshold)
            && r[0].score >= Score(Lower(query), SearchText(emails[k]), sqrt, ratio) >= CosineWeight
  {
    var q := Lower(query);
    var js := JudgeAll(q, emails, sqrt, ratio);
    JudgeAllSpec(q, emails, sqrt, ratio);
    LowerSpec(query);
    CosineSelf(q, sqrt);
    assert 0.0 <= ratio(q, q);
    assert Score(q, SearchText(emails[k]), sqrt, ratio) >= CosineWeight;
    assert IsStrong(js, k);
    SelectStrongTier(js);
    SelectTakesTheTop(js);
    SelectOrdered(js);
    var r := Ranking(query, emails, sqrt, ratio);
    var c := CandidateAt(js, k);
    assert c !in r || r[0].score >= c.score;
  }

  /** Only weak candidates, at least two of them: exactly two come back,
      the higher score first. */
  lemma WeakFallbackGivesTwo(query: string, emails: seq<Email>, k1: nat, k2: nat, sqrt: nat -> real, ratio: (string, string) -> real)
    requires k1 < |emails| && k2 < |emails| && k1 != k2
    requires forall k :: 0 <= k < |emails| ==> Score(Lower(query), SearchText(emails[k]), sqrt, ratio) <= StrongThreshold
    requires Keep(Lower(query), SearchText(emails[k1]), sqrt, ratio)
    requires Keep(Lower(query), SearchText(emails[k2]), sqrt, ratio)
    ensures var r := Ranking(query, emails, sqrt, ratio);
            |r| == 2 && r[0].score >= r[1].score
  {
    var js := JudgeAll(Lower(query), emails, sqrt, ratio);
    JudgeAllSpec(Lower(query), emails, sqrt, ratio);
    assert forall k :: !IsStrong(js, k);
    SelectWeakTier(js);
    SelectOrdered(js);
    var r := Ranking(query, emails, sqrt, ratio);
    TwoMembers(r, CandidateAt(js, k1), CandidateAt(js, k2));
  }

  lemma TwoMembers<T>(s: seq<T>, x: T, y: T)
    requires x != y
    ensures x in s && y in s ==> |s| >= 2
  {
  }
}
