/** The tokenizer of the relevance search (`re.findall(r'\b\w+\b',
    text.lower())`) and the whitespace split of the fallback search
    (`str.split()` with no argument). */
module Tokens {
  import opened Text

  /** The lower-cased maximal runs of word characters of `text`, left to
      right. `\b\w+\b` can only match a whole run, because a word boundary
      cannot fall inside one. */
  function Tokenize(text: string): seq<string> {
    Runs(Lower(text), IsWordChar)
  }

  /** Every token is a non-empty run of word characters, has no upper-case
      letter and occurs in the lower-cased text. */
  lemma TokenizeSpec(text: string)
    ensures forall t :: t in Tokenize(text) ==>
              IsRun(t, IsWordChar) && NoUpper(t) && Contains(Lower(text), t)
  {
    var lowered := Lower(text);
    RunsWellFormed(lowered, IsWordChar);
    LowerSpec(text);
    forall t | t in Runs(lowered, IsWordChar) ensures NoUpper(t) {
      ContainsIffOccurs(lowered, t);
      var i: nat :| OccursAt(lowered, t, i);
      forall j | 0 <= j < |t| ensures !IsUpper(t[j]) {
        assert t[j] == lowered[i + j];
      }
    }
  }

  /** Read left to right, the tokens spell out the word characters of the
      lower-cased text, in order. */
  lemma TokensInOrder(text: string)
    ensures Concat(Tokenize(text)) == ClassChars(Lower(text), IsWordChar)
  {
    RunsInOrder(Lower(text), IsWordChar);
  }

  /** Text without word characters, the empty text included, has no tokens. */
  lemma TokenizeNoWords(text: string)
    requires forall i :: 0 <= i < |text| ==> !IsWordChar(text[i])
    ensures Tokenize(text) == []
  {
    var lowered := Lower(text);
    forall i | 0 <= i < |lowered| ensures !IsWordChar(lowered[i]) {
      assert lowered[i] == LowerChar(text[i]);
    }
    RunsOfDelimiters(lowered, IsWordChar);
  }

  /** A non-word character separates tokens: tokenizing `a + [c] + b` gives
      the tokens of `a` followed by those of `b`. */
  lemma TokenizeSplit(a: string, c: char, b: string)
    requires !IsWordChar(c)
    ensures Tokenize(a + [c] + b) == Tokenize(a) + Tokenize(b)
  {
    LowerAppend(a + [c], b);
    LowerAppend(a, [c]);
    assert Lower([c]) == [LowerChar(c)];
    RunsSplit(Lower(a), LowerChar(c), Lower(b), IsWordChar);
  }

  /** Round trip: `tokenize(" ".join(tokenize(text))) == tokenize(text)`. */
  lemma TokenizeJoin(text: string)
    ensures Tokenize(Join(Tokenize(text), ' ')) == Tokenize(text)
  {
    var tokens := Tokenize(text);
    var joined := Join(tokens, ' ');
    TokenizeSpec(text);
    JoinNoUpper(tokens, ' ');
    LowerSpec(joined);
    RunsOfJoin(tokens, ' ', IsWordChar);
  }

  lemma {:induction false} JoinNoUpper(words: seq<string>, sep: char)
    requires !IsUpper(sep)
    requires forall w :: w in words ==> NoUpper(w)
    ensures NoUpper(Join(words, sep))
    decreases |words|
  {
    if |words| == 1 {
      assert words[0] in words;
    } else if |words| > 1 {
      JoinNoUpper(words[1..], sep);
      var rest := Join(words[1..], sep);
      var joined := words[0] + [sep] + rest;
      assert words[0] in words;
      forall i | 0 <= i < |joined| ensures !IsUpper(joined[i]) {
        if i < |words[0]| {
          assert joined[i] == words[0][i];
        } else if i > |words[0]| {
          assert joined[i] == rest[i - |words[0]| - 1];
        } else {
          assert joined[i] == sep;
        }
      }
    }
  }

  /** `text.split()`: the maximal runs of non-whitespace characters. */
  function Split(text: string): (words: seq<string>)
    ensures forall w :: w in words ==> IsRun(w, NotSpace) && Contains(text, w)
  {
    RunsWellFormed(text, NotSpace);
    Runs(text, NotSpace)
  }

  /** An empty or whitespace-only text splits into no words. */
  lemma SplitBlank(text: string)
    requires forall i :: 0 <= i < |text| ==> IsSpace(text[i])
    ensures Split(text) == []
  {
    RunsOfDelimiters(text, NotSpace);
  }
}
