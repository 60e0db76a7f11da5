# Email relevance search, modelled in Dafny

This project models the search logic of a small Gmail assistant backend. The
user types a query, and the backend picks the emails that best match it from
a list of emails. Each email has an optional subject, sender (`from`) and
snippet.

- `tokenize` splits lower-cased text into maximal runs of word characters.
- `cosine_similarity` compares two texts by the cosine of their
  term-frequency vectors. It returns 0 when either text has no token.
- `search_emails` does the following for each email:
  - it builds the search text `"subject from snippet"` and lower-cases it,
    using `''` for a missing field;
  - it scores the email as `0.75 * cosine + 0.25 * ratio`, where `ratio` is
    the character-matching ratio of `difflib.SequenceMatcher`;
  - it keeps the email when the score is above 0.25 or when some keyword of
    the query occurs in the search text.

  It then sorts the kept emails stably by score, highest first. It returns
  the first three that score above 0.35. If none does, it returns the first
  two of all the kept emails.
- `simple_search` is the fallback used when the analyser is missing. It keeps,
  in input order, every email whose search text contains some
  whitespace-separated word of the lower-cased query. It returns the first
  five.

Modules:

- `Text`: characters, lower-casing, substring search, runs of characters,
  `Take` (a Python slice `[:n]`) and subsequences.
- `Mail`: the email record and its search text.
- `Tokens`: `tokenize` and `str.split()`.
- `Cosine`: `cosine_similarity`.
- `Ranker`: `search_emails`.
- `Fallback`: `simple_search`.

The two loops of the source are methods proved against specification
functions:

- `Ranker.SearchEmails` uses `ScoreAll`/`ScoreEmail` for the scoring loop
  and `SortByScore` for the stable sort.
- `Fallback.SimpleSearch` is the filtering loop.

Lemmas about those specification functions state what the source promises.

## Model

| member | source | states |
|---|---|---|
| Text.LowerChar | backend/analyze_emails.py:7 | lower-casing one character maps each capital `A`-`Z` to the letter at the same place in `a`-`z`, changes no other character, leaves no upper-case letter, and keeps whether a character is a word character or whitespace |
| Text.Lower | backend/analyze_emails.py:26 | `str.lower()`: each character lower-cased in place, so the length is unchanged (what it keeps is stated by `LowerChar` and `LowerSpec`) |
| Text.LowerSpec | backend/analyze_emails.py:26 | `query.lower()` has no upper-case letter, leaves lower-case text unchanged and is idempotent |
| Text.LowerAppend | backend/analyze_emails.py:31 | lower-casing the f-string equals concatenating the lower-cased fields |
| Text.Contains | backend/analyze_emails.py:39 | Python's `word in text`: `word` is a prefix of some suffix of `text` (characterised by `ContainsIffOccurs`) |
| Text.ContainsAny | backend/analyze_emails.py:39 | `any(word in text for word in words)`: some word of the list occurs in the text |
| Text.ContainsIffOccurs | backend/analyze_emails.py:39 | Python's `word in text` holds exactly when `word` occurs at some position of `text` |
| Text.ContainsSlice | backend/analyze_emails.py:39 | a word contained in a slice of a text is contained in the text |
| Text.Runs | backend/analyze_emails.py:7 | `re.findall` of maximal runs of a character class, left to right, delimiters dropped (stated by the `Runs*` lemmas below) |
| Text.RunsWellFormed | backend/analyze_emails.py:7 | every maximal run is non-empty, consists only of run characters and occurs in the text |
| Text.RunsSplit | backend/analyze_emails.py:7 | a delimiter character splits the runs: the runs of `a + [c] + b` are those of `a` followed by those of `b` |
| Text.RunsOfJoin | backend/analyze_emails.py:7 | joining runs with a delimiter and splitting again gives the runs back |
| Text.RunsOfDelimiters | backend/analyze_emails.py:7 | a text without run characters has no runs |
| Text.RunsInOrder | backend/analyze_emails.py:7 | the runs, concatenated, are exactly the run characters of the text in their original order: nothing is lost, added or reordered |
| Text.Take | backend/analyze_emails.py:49 | the slice `[:n]` is a prefix of length `min(n, len)` |
| Text.SubsequenceExtend | backend/app.py:134-137 | appending the current element to the results, or not, keeps the results a subsequence of the processed input |
| Text.SubsequencePrefix | backend/app.py:139 | a prefix of a subsequence is a subsequence |
| Mail.GetOrEmpty | backend/analyze_emails.py:31 | `email.get(key, '')`: the field's string, or `''` when it is missing |
| Mail.SearchText | backend/analyze_emails.py:31 | the search text is the lower-cased subject, sender and snippet (`''` when missing), separated by single spaces, and holds no upper-case letter |
| Tokens.Tokenize | backend/analyze_emails.py:6-7 | `tokenize(text)`: the maximal runs of word characters of the lower-cased text (stated by the `Tokenize*` lemmas below) |
| Tokens.TokenizeSpec | backend/analyze_emails.py:6-7 | every token is a non-empty run of word characters, has no upper-case letter and occurs in the lower-cased text |
| Tokens.TokensInOrder | backend/analyze_emails.py:6-7 | the tokens, concatenated, are the word characters of the lower-cased text in their original order |
| Tokens.TokenizeNoWords | backend/analyze_emails.py:6-7 | a text without word characters, the empty text included, has no tokens |
| Tokens.TokenizeSplit | backend/analyze_emails.py:6-7 | a non-word character separates tokens: tokenizing `a + [c] + b` gives the tokens of `a` followed by those of `b` |
| Tokens.TokenizeJoin | backend/analyze_emails.py:6-7 | re-tokenizing the tokens joined by spaces gives the same tokens |
| Tokens.JoinNoUpper | backend/analyze_emails.py:6-7 | joining lower-case words with a lower-case separator gives lower-case text |
| Tokens.Split | backend/app.py:136 | every word of `str.split()` is a non-empty run of non-whitespace characters that occurs in the text |
| Tokens.SplitBlank | backend/app.py:136 | an empty or whitespace-only text splits into no words |
| Cosine.Keys | backend/analyze_emails.py:11-12 | the keys of `Counter(tokens)`, each distinct token once (stated by `KeysSpec`) |
| Cosine.Shared | backend/analyze_emails.py:14 | `set(a_words.keys()) & set(b_words.keys())` as a list in the order of the first key list (stated by `SharedSpec`) |
| Cosine.Dot | backend/analyze_emails.py:15-18 | `sum(a[x] * b[x] for x in keys)` over two counters; with `a == b` it is `sum(v ** 2 ...)` |
| Cosine.CosineParts | backend/analyze_emails.py:11-18 | the exact integers `numerator`, `sum1` and `sum2` of two texts |
| Cosine.Quotient | backend/analyze_emails.py:19-23 | `0.0` when `sqrt(sum1) * sqrt(sum2)` is zero, otherwise `numerator` divided by it |
| Cosine.CosineSimilarity | backend/analyze_emails.py:9-23 | `cosine_similarity(a, b)`: the quotient of the two texts' parts (stated by the `Cosine*` lemmas below) |
| Cosine.KeysSpec | backend/analyze_emails.py:11-12 | `Counter(...).keys()` lists every distinct token exactly once and nothing else |
| Cosine.SharedSpec | backend/analyze_emails.py:14 | the intersection holds exactly the keys present in both counters, each once |
| Cosine.DotAppend | backend/analyze_emails.py:15 | the sum of products over a concatenation of keys is the sum of the two partial sums |
| Cosine.DotSwap | backend/analyze_emails.py:15 | the sum of products does not depend on the order of the two counters |
| Cosine.DotSubset | backend/analyze_emails.py:15-18 | the sum of products over a duplicate-free subset of the keys is at most the sum over all keys |
| Cosine.DotSameKeys | backend/analyze_emails.py:15-18 | two duplicate-free key lists with the same members give the same sum |
| Cosine.CauchySchwarz | backend/analyze_emails.py:15-18 | over any key list, the square of the sum of products is at most the product of the two sums of squares |
| Cosine.PartsSymmetric | backend/analyze_emails.py:11-18 | swapping the two texts keeps `numerator` and exchanges `sum1` and `sum2` |
| Cosine.PartsBound | backend/analyze_emails.py:14-18 | `numerator * numerator <= sum1 * sum2` |
| Cosine.DotPositive | backend/analyze_emails.py:17-18 | the sum of squares over a non-empty list of present keys is positive |
| Cosine.SumOfSquaresZero | backend/analyze_emails.py:17-18 | `sum1` is 0 exactly when the first text has no token, and likewise `sum2` for the second text |
| Cosine.SharedKeepsMembers | backend/analyze_emails.py:14 | intersecting a key list with a list that holds all of its keys keeps it unchanged |
| Cosine.PartsSelf | backend/analyze_emails.py:14-18 | for a text compared with itself, `numerator == sum1 == sum2` |
| Cosine.DenominatorSquared | backend/analyze_emails.py:19 | the denominator is non-negative and its square is `sum1 * sum2` |
| Cosine.RatioAtMostOne | backend/analyze_emails.py:23 | a non-negative numerator whose square is at most the square of a positive denominator gives a quotient in [0, 1] |
| Cosine.QuotientRange | backend/analyze_emails.py:19-23 | whenever `numerator * numerator <= sum1 * sum2`, the returned value lies in [0, 1], the zero-denominator case included |
| Cosine.QuotientSelf | backend/analyze_emails.py:19-23 | a positive numerator equal to both sums gives exactly 1 |
| Cosine.QuotientSwap | backend/analyze_emails.py:19-23 | exchanging `sum1` and `sum2` does not change the returned value |
| Cosine.CosineRange | backend/analyze_emails.py:9-23 | the cosine similarity lies in [0, 1] |
| Cosine.CosineSymmetric | backend/analyze_emails.py:9-23 | the cosine similarity is symmetric in its two texts |
| Cosine.CosineSelf | backend/analyze_emails.py:9-23 | a text with at least one token has cosine similarity 1 with itself |
| Cosine.DenominatorZero | backend/analyze_emails.py:19-22 | the denominator is zero exactly when one of the sums of squares is zero, and then the result is 0 |
| Cosine.CosineDegenerate | backend/analyze_emails.py:19-22 | the denominator is zero exactly when one of the texts has no token, and then the similarity is 0 |
| Ranker.Score | backend/analyze_emails.py:33-37 | `combined_score`: `0.75 * cosine + 0.25 * ratio` of the query and the email's text (bounded by `ScoreRange`) |
| Ranker.Keep | backend/analyze_emails.py:39 | the inclusion test: score above 0.25, or some query keyword occurs in the text |
| Ranker.JudgeAll | backend/analyze_emails.py:30-40 | one judgement (email, score, keep) per input email, in input order, as many as there are emails |
| Ranker.Candidates | backend/analyze_emails.py:30-40 | `results` after the loop has seen the first `n` emails: a `(score, email)` pair per kept email (stated by `CandidatesSpec`) |
| Ranker.InsertByScore | backend/analyze_emails.py:43 | inserts one pair into a list sorted by descending score, before the first pair scoring lower (so after every pair scoring at least as high); `InsertByScorePerm` and `InsertByScoreRanked` state what it keeps |
| Ranker.SortedByScore | backend/analyze_emails.py:43 | `sorted(results, key=..., reverse=True)` as insertion in input order (stated by `SortedByScoreSpec`) |
| Ranker.Tiers | backend/analyze_emails.py:46-49 | `strong_results[:3]` if there are strong results, else `results[:2]` |
| Ranker.Select | backend/analyze_emails.py:40-49 | `final_results` for any judgement of the emails: candidates, sorted, then cut into tiers (stated by the `Select*` lemmas) |
| Ranker.Ranking | backend/analyze_emails.py:25-49 | `final_results` of `search_emails(query, emails)`: `Select` of the judgements for the lower-cased query (stated by `RankingSound` and the scenario lemmas) |
| Ranker.EmailsOf | backend/analyze_emails.py:51 | `[r[1] for r in final_results]`: the email of each pair, in order |
| Ranker.JudgeAllAt | backend/analyze_emails.py:30-40 | the k-th email gets the score `0.75 * cosine + 0.25 * ratio` of its search text, and it is kept exactly when that score is above 0.25 or some query keyword occurs in the search text |
| Ranker.JudgeAllSpec | backend/analyze_emails.py:30-40 | the same for every email at once |
| Ranker.ScoreEmail | backend/analyze_emails.py:31-39 | one pass of the loop body computes the score and the keep decision of the k-th email |
| Ranker.ScoreAll | backend/analyze_emails.py:27-40 | the loop appends, in input order, a (score, email) pair for exactly the kept emails |
| Ranker.SortByScore | backend/analyze_emails.py:43 | the insertion sort computes the stable descending order of the specification |
| Ranker.SearchEmails | backend/analyze_emails.py:25-51 | `search_emails` returns the emails of the ranking specification `Ranking` |
| Ranker.CandidatesSpec | backend/analyze_emails.py:30-40 | `results` holds exactly the kept emails, each with its score, in increasing input position |
| Ranker.CandidatesIncrease | backend/analyze_emails.py:30-40 | the candidates' input positions strictly increase |
| Ranker.InsertByScorePerm | backend/analyze_emails.py:43 | inserting one pair adds exactly that pair |
| Ranker.InsertByScoreRanked | backend/analyze_emails.py:43 | inserting a pair from a later position keeps the order: descending score, and input order among equal scores |
| Ranker.SortedByScoreSpec | backend/analyze_emails.py:43 | `sorted(..., reverse=True)` is a permutation of its input, in descending score and stable, so equal scores keep input order |
| Ranker.StrongOnlyMembers | backend/analyze_emails.py:46 | `strong_results` holds exactly the results scoring above 0.35 |
| Ranker.StrongOnlyNone | backend/analyze_emails.py:46 | with no result above 0.35, `strong_results` is empty |
| Ranker.StrongIsPrefix | backend/analyze_emails.py:43-46 | on sorted results, the strong results are a prefix of them |
| Ranker.SortedCandidates | backend/analyze_emails.py:40-43 | the sorted candidates are ordered and are a permutation of the candidates |
| Ranker.SelectIsPrefix | backend/analyze_emails.py:43-49 | the final results are a prefix of the sorted candidates |
| Ranker.SortedMembers | backend/analyze_emails.py:39-43 | the sorted list holds exactly the kept emails, each with its own score |
| Ranker.SelectSound | backend/analyze_emails.py:39-51 | at most 3 results, and each one is a kept email with its own score |
| Ranker.SelectOrdered | backend/analyze_emails.py:43-51 | the results have non-increasing scores, equal scores in input order, and no input email twice |
| Ranker.PrefixRanked | backend/analyze_emails.py:49 | a slice `[:n]` of a sorted list is still sorted |
| Ranker.RankedOrder | backend/analyze_emails.py:43 | the sort order means non-increasing scores, ties in input order and distinct positions |
| Ranker.SelectTakesTheTop | backend/analyze_emails.py:43-51 | every kept email that is not returned ranks after every returned one |
| Ranker.SelectStrongTier | backend/analyze_emails.py:46-49 | when some kept email scores above 0.35, the result is non-empty and all strong, and it holds three emails or every strong one |
| Ranker.SelectWeakTier | backend/analyze_emails.py:48-49 | when no kept email scores above 0.35, the result holds at most two emails, and it holds two or every kept one |
| Ranker.StrongOnly | backend/analyze_emails.py:46 | the filter never grows the list |
| Ranker.ScoreRange | backend/analyze_emails.py:33-37 | with a ratio in [0, 1], the combined score lies in [0, 1] |
| Ranker.RankingSound | backend/analyze_emails.py:25-51 | at most 3 emails are returned, each an input email that passed the keep test, listed with its own score and in non-increasing score order |
| Ranker.NoCandidateNoResult | backend/analyze_emails.py:39-51 | when no email passes the keep test, the result is empty |
| Ranker.ExactQueryIsStrong | backend/analyze_emails.py:26-51 | a query equal to an email's search text (with a token) makes that email's score at least 0.75, so the strong tier is used and the top score is at least that high |
| Ranker.WeakFallbackGivesTwo | backend/analyze_emails.py:46-51 | with two kept emails and no score above 0.35, exactly two emails come back, in score order |
| Fallback.Matches | backend/app.py:135-136 | an email matches when some query word occurs in its search text |
| Fallback.Matching | backend/app.py:132-137 | the matching emails in input order (stated by `MatchingIsSubsequence` and `MatchingCount`) |
| Fallback.SimpleResults | backend/app.py:131-139 | `simple_search(query, emails)`: the first five matches for the words of the lower-cased query (stated by `SimpleSearchSpec`) |
| Fallback.SimpleSearch | backend/app.py:129-139 | the loop keeps exactly the matching emails in input order, and the result is the first five of them |
| Fallback.MatchingIsSubsequence | backend/app.py:132-137 | the matches are a subsequence of the input: nothing is reordered or made up |
| Fallback.MatchingCount | backend/app.py:134-137 | a matching email appears as often as in the input, and any other email appears not at all |
| Fallback.SimpleSearchSpec | backend/app.py:131-139 | at most five results, a subsequence of the input, a prefix of the matches (five of them or all), and every result matches |
| Fallback.MatchFound | backend/app.py:134-139 | a matching email is returned unless five earlier matches filled the result |
| Fallback.BlankQueryFindsNothing | backend/app.py:131-136 | an empty or whitespace-only query finds nothing |
| Fallback.NoWordsNoMatch | backend/app.py:136 | with no query words, no email matches, since `any` over nothing is false |

## Left out

- The Flask routes, CORS, JSON request and response handling, and HTTP status codes (backend/app.py:65-127). This is request handling and I/O.
- `load_emails`, `create_sample_emails` and the server start in `__main__` (backend/app.py:9-63, 141-154). These are file-system I/O. The sample emails are not used as a fixture.
- `backend/gmail_client.py` and `mobile/app/index.js` are not part of this model. They are OAuth, Gmail API calls, file output and user interface, with no search logic of their own.
- `difflib.SequenceMatcher(None, query, text).ratio()` is the parameter `ratio`. Its block-matching algorithm is not modelled. Lemmas that need its range assume only `IsRatio`: every value lies in [0, 1].
- `math.sqrt` is the parameter `sqrt`. Lemmas assume only `IsSqrt`: `sqrt(n)` is non-negative, its square is `n`, and it is 0 exactly at 0.
- Floating point: scores are exact reals. Rounding in `sqrt`, in the division and in the 0.75/0.25 blend is not modelled. An email whose float score lands on the other side of 0.25 or 0.35 than its exact score is outside the model.
- Cosine.CosineRange and Cosine.CosineSelf hold for exact reals, not for the float program. In doubles, `math.sqrt(3) * math.sqrt(3)` is `2.9999999999999996`, so `cosine_similarity("a b c", "a b c")` is `1.0000000000000002`: above 1, and not 1. The integer facts behind them, `PartsBound` (`numerator * numerator <= sum1 * sum2`) and `PartsSelf` (`numerator == sum1 == sum2`), hold exactly in the source too.
- Unicode: `\w` is ASCII letters, digits and `_`. `lower()` maps only `A`-`Z`. `split()` whitespace is characters 9-13 and 28-32. Python's Unicode tables are wider.
- A field that is present but is not a string (`None`, a number) is formatted by Python's `str()`. The model's `Option<string>` covers only a missing field or a string value.
- `Counter` key order: `Keys` lists keys in order of last occurrence, not first. The sums do not depend on the order.
- Email identity: the returned dictionaries are the input objects. The model identifies each candidate by its input position `pos`, and returns `emails[pos]`.
- Ranker.StrongOnly: its own contract states only the length bound. What the filter keeps is stated by `StrongOnlyMembers` and `StrongIsPrefix`.
