/** `cosine_similarity(a, b)`: the cosine of the angle between the raw
    term-frequency vectors of two texts.

    A `Counter` of tokens is a multiset; its keys are listed once each by
    `Keys`. The three integer quantities of the source (`numerator`, `sum1`,
    `sum2`) are computed exactly; the square root is `math.sqrt`, received as
    a parameter whose defining property `IsSqrt` the lemmas assume. */
module Cosine {
  import opened Text
  import opened Tokens

  ghost predicate NoDup(ks: seq<string>) {
    forall i, j :: 0 <= i < j < |ks| ==> ks[i] != ks[j]
  }

  /** `Counter(tokens).keys()`: every distinct token, once. */
  function Keys(tokens: seq<string>): seq<string> {
    if tokens == [] then []
    else
      var rest := Keys(tokens[1..]);
      if tokens[0] in rest then rest else [tokens[0]] + rest
  }

  /** The keys are the distinct tokens, each listed once. */
  lemma {:induction false} KeysSpec(tokens: seq<string>)
    ensures NoDup(Keys(tokens))
    ensures forall x :: x in Keys(tokens) <==> x in tokens
    decreases |tokens|
  {
    if tokens != [] {
      KeysSpec(tokens[1..]);
      assert forall x :: x in tokens <==> x == tokens[0] || x in tokens[1..];
    }
  }

  /** `set(a_words.keys()) & set(b_words.keys())`, listed in the order of `ka`. */
  function Shared(ka: seq<string>, kb: seq<string>): seq<string> {
    if ka == [] then []
    else (if ka[0] in kb then [ka[0]] else []) + Shared(ka[1..], kb)
  }

  /** The shared keys are those of both lists, each listed once when `ka`
      lists each once. */
  lemma {:induction false} SharedSpec(ka: seq<string>, kb: seq<string>)
    ensures NoDup(ka) ==> NoDup(Shared(ka, kb))
    ensures forall x :: x in Shared(ka, kb) <==> x in ka && x in kb
    decreases |ka|
  {
    if ka != [] {
      SharedSpec(ka[1..], kb);
      assert forall x :: x in ka <==> x == ka[0] || x in ka[1..];
    }
  }

  /** `sum(a[x] * b[x] for x in keys)` over two counters. */
  function Dot(keys: seq<string>, a: multiset<string>, b: multiset<string>): nat {
    if keys == [] then 0 else a[keys[0]] * b[keys[0]] + Dot(keys[1..], a, b)
  }

  /** The integer quantities of `cosine_similarity(a, b)`. */
  datatype Parts = Parts(numerator: nat, sum1: nat, sum2: nat)

  function CosineParts(a: string, b: string): Parts {
    var ta, tb := Tokenize(a), Tokenize(b);
    var va, vb := multiset(ta), multiset(tb);
    Parts(Dot(Shared(Keys(ta), Keys(tb)), va, vb),
          Dot(Keys(ta), va, va),
          Dot(Keys(tb), vb, vb))
  }

  /** What `math.sqrt` returns on a non-negative integer: the non-negative
      square root, which is zero exactly at zero. */
  ghost predicate IsSqrt(sqrt: nat -> real) {
    forall n: nat :: 0.0 <= sqrt(n) && sqrt(n) * sqrt(n) == n as real && (sqrt(n) == 0.0 <==> n == 0)
  }

  /** `cosine_similarity(a, b)`: `0.0` when the denominator is zero, the
      quotient otherwise. */
  function CosineSimilarity(a: string, b: string, sqrt: nat -> real): real {
    Quotient(CosineParts(a, b), sqrt)
  }

  /** `numerator / (sqrt(sum1) * sqrt(sum2))`, or `0.0` without dividing
      when that denominator is zero. */
  function Quotient(p: Parts, sqrt: nat -> real): real {
    var denominator := sqrt(p.sum1) * sqrt(p.sum2);
    if denominator == 0.0 then 0.0 else p.numerator as real / denominator
  }

  // ---------------------------------------------------------------------
  // Sums over key lists.
  // ---------------------------------------------------------------------

  lemma {:induction false} DotAppend(s: seq<string>, t: seq<string>, a: multiset<string>, b: multiset<string>)
    ensures Dot(s + t, a, b) == Dot(s, a, b) + Dot(t, a, b)
    decreases |s|
  {
    if s == [] {
      assert s + t == t;
    } else {
      assert (s + t)[0] == s[0];
      assert (s + t)[1..] == s[1..] + t;
      DotAppend(s[1..], t, a, b);
    }
  }

  lemma {:induction false} DotSwap(keys: seq<string>, a: multiset<string>, b: multiset<string>)
    ensures Dot(keys, a, b) == Dot(keys, b, a)
    decreases |keys|
  {
    if keys != [] {
      DotSwap(keys[1..], a, b);
    }
  }

  /** A sum over distinct keys does not decrease when more keys are added. */
  lemma {:induction false} DotSubset(small: seq<string>, large: seq<string>, a: multiset<string>, b: multiset<string>)
    requires NoDup(small)
    requires forall x :: x in small ==> x in large
    ensures Dot(small, a, b) <= Dot(large, a, b)
    decreases |small|
  {
    if small != [] {
      var x := small[0];
      assert x in small;
      assert x in large;
      var i :| 0 <= i < |large| && large[i] == x;
      var rest := large[..i] + large[i + 1..];
      assert large == large[..i] + [x] + large[i + 1..];
      DotAppend(large[..i] + [x], large[i + 1..], a, b);
      DotAppend(large[..i], [x], a, b);
      DotAppend(large[..i], large[i + 1..], a, b);
      forall y | y in small[1..] ensures y in rest {
        assert y in small;
        assert y in large;
        var j :| 0 <= j < |large| && large[j] == y;
        assert y != x;
        if j < i {
          assert rest[j] == y;
        } else {
          assert j > i;
          assert rest[j - 1] == y;
        }
      }
      DotSubset(small[1..], rest, a, b);
    }
  }

  lemma DotSameKeys(s: seq<string>, t: seq<string>, a: multiset<string>, b: multiset<string>)
    requires NoDup(s) && NoDup(t)
    requires forall x :: x in s <==> x in t
    ensures Dot(s, a, b) == Dot(t, a, b)
  {
    DotSubset(s, t, a, b);
    DotSubset(t, s, a, b);
  }

  // ---------------------------------------------------------------------
  // Cauchy-Schwarz over non-negative integer vectors.
  // ---------------------------------------------------------------------

  lemma MulMono(k: int, u: int, v: int)
    requires 0 <= k && u <= v
    ensures k * u <= k * v
  {
  }

  lemma SquareNonNegative(t: int)
    ensures t * t >= 0
  {
    if t < 0 {
      MulMono(-t, 0, -t);
    } else {
      MulMono(t, 0, t);
    }
  }

  lemma PositiveFactor(k: int, d: int)
    requires k > 0 && k * d >= 0
    ensures d >= 0
  {
    if d < 0 {
      MulMono(k, d, -1);
    }
  }

  /** `2xys <= x²q + y²p` whenever `s² <= pq`: multiplied by `p`, the gap is
      at least `(xs - yp)²`. */
  lemma CrossTerm(x: nat, y: nat, s: nat, p: nat, q: nat)
    requires s * s <= p * q
    ensures 2 * x * y * s <= x * x * q + y * y * p
  {
    if p == 0 {
      assert s * s <= 0;
      SquareZero(s);
    } else {
      var gap := x * x * q + y * y * p - 2 * x * y * s;
      MulMono(x * x, s * s, p * q);
      SquareNonNegative(x * s - y * p);
      ExpandCross(x, y, s, p);
      ExpandGap(x, y, s, p, q, gap);
      PositiveFactor(p, gap);
    }
  }

  lemma SquareZero(s: int)
    requires s * s <= 0
    ensures s == 0
  {
    if s != 0 {
      SquarePositive(s);
    }
  }

  lemma SquarePositive(s: int)
    requires s != 0
    ensures s * s > 0
  {
    if s < 0 {
      MulMono(-s, 1, -s);
    } else {
      MulMono(s, 1, s);
    }
  }

  lemma ExpandCross(x: int, y: int, s: int, p: int)
    ensures (x * s - y * p) * (x * s - y * p) == x * x * (s * s) - 2 * x * y * s * p + y * y * p * p
  {
  }

  lemma ExpandGap(x: int, y: int, s: int, p: int, q: int, gap: int)
    requires gap == x * x * q + y * y * p - 2 * x * y * s
    ensures p * gap == x * x * (p * q) + y * y * p * p - 2 * x * y * s * p
  {
  }

  /** One step of Cauchy-Schwarz: adding a coordinate keeps the inequality. */
  lemma CauchySchwarzStep(x: nat, y: nat, s: nat, p: nat, q: nat)
    requires s * s <= p * q
    ensures (x * y + s) * (x * y + s) <= (x * x + p) * (y * y + q)
  {
    CrossTerm(x, y, s, p, q);
    ExpandLeft(x, y, s);
    ExpandRight(x, y, p, q);
  }

  lemma ExpandLeft(x: int, y: int, s: int)
    ensures (x * y + s) * (x * y + s) == x * x * (y * y) + 2 * x * y * s + s * s
  {
  }

  lemma ExpandRight(x: int, y: int, p: int, q: int)
    ensures (x * x + p) * (y * y + q) == x * x * (y * y) + x * x * q + y * y * p + p * q
  {
  }

  lemma {:induction false} CauchySchwarz(keys: seq<string>, a: multiset<string>, b: multiset<string>)
    ensures Dot(keys, a, b) * Dot(keys, a, b) <= Dot(keys, a, a) * Dot(keys, b, b)
    decreases |keys|
  {
    if keys != [] {
      var x, y := a[keys[0]], b[keys[0]];
      var s, p, q := Dot(keys[1..], a, b), Dot(keys[1..], a, a), Dot(keys[1..], b, b);
      CauchySchwarz(keys[1..], a, b);
      CauchySchwarzStep(x, y, s, p, q);
    }
  }

  // ---------------------------------------------------------------------
  // Properties of the integer quantities.
  // ---------------------------------------------------------------------

  /** Swapping the texts keeps the shared-key set and the numerator and
      swaps the two sums of squares. */
  lemma PartsSymmetric(a: string, b: string)
    ensures CosineParts(b, a).numerator == CosineParts(a, b).numerator
    ensures CosineParts(b, a).sum1 == CosineParts(a, b).sum2
    ensures CosineParts(b, a).sum2 == CosineParts(a, b).sum1
  {
    var ta, tb := Tokenize(a), Tokenize(b);
    var va, vb := multiset(ta), multiset(tb);
    KeysSpec(ta);
    KeysSpec(tb);
    SharedSpec(Keys(ta), Keys(tb));
    SharedSpec(Keys(tb), Keys(ta));
    DotSameKeys(Shared(Keys(ta), Keys(tb)), Shared(Keys(tb), Keys(ta)), va, vb);
    DotSwap(Shared(Keys(tb), Keys(ta)), va, vb);
  }

  /** Cauchy-Schwarz for the two count vectors: `numerator² <= sum1 * sum2`,
      so the cosine lies in [0, 1]. */
  lemma PartsBound(a: string, b: string)
    ensures CosineParts(a, b).numerator * CosineParts(a, b).numerator
            <= CosineParts(a, b).sum1 * CosineParts(a, b).sum2
  {
    var ta, tb := Tokenize(a), Tokenize(b);
    var va, vb := multiset(ta), multiset(tb);
    var shared := Shared(Keys(ta), Keys(tb));
    KeysSpec(ta);
    KeysSpec(tb);
    SharedSpec(Keys(ta), Keys(tb));
    CauchySchwarz(shared, va, vb);
    DotSubset(shared, Keys(ta), va, va);
    DotSubset(shared, Keys(tb), vb, vb);
    BoundChain(Dot(shared, va, vb), Dot(shared, va, va), Dot(shared, vb, vb),
               Dot(Keys(ta), va, va), Dot(Keys(tb), vb, vb));
  }

  lemma BoundChain(n: nat, p: nat, q: nat, s1: nat, s2: nat)
    requires n * n <= p * q && p <= s1 && q <= s2
    ensures n * n <= s1 * s2
  {
    MulMono(p, q, s2);
    MulMono(s2, p, s1);
    assert p * s2 == s2 * p;
  }

  lemma {:induction false} DotPositive(keys: seq<string>, a: multiset<string>)
    requires keys != []
    requires forall x :: x in keys ==> x in a
    ensures Dot(keys, a, a) > 0
    decreases |keys|
  {
    assert keys[0] in keys;
    assert a[keys[0]] >= 1;
    MulMono(a[keys[0]], 1, a[keys[0]]);
  }

  /** The sum of squares of a text's counts is zero exactly when the text
      has no tokens. */
  lemma SumOfSquaresZero(a: string, b: string)
    ensures CosineParts(a, b).sum1 == 0 <==> Tokenize(a) == []
    ensures CosineParts(a, b).sum2 == 0 <==> Tokenize(b) == []
  {
    var ta, tb := Tokenize(a), Tokenize(b);
    KeysSpec(ta);
    KeysSpec(tb);
    if ta != [] {
      assert ta[0] in Keys(ta);
      DotPositive(Keys(ta), multiset(ta));
    }
    if tb != [] {
      assert tb[0] in Keys(tb);
      DotPositive(Keys(tb), multiset(tb));
    }
  }

  lemma {:induction false} SharedKeepsMembers(ka: seq<string>, kb: seq<string>)
    requires forall x :: x in ka ==> x in kb
    ensures Shared(ka, kb) == ka
    decreases |ka|
  {
    if ka != [] {
      assert ka[0] in ka;
      SharedKeepsMembers(ka[1..], kb);
    }
  }

  /** Compared with itself, a text's numerator equals both sums of squares. */
  lemma PartsSelf(a: string)
    ensures CosineParts(a, a).numerator == CosineParts(a, a).sum1 == CosineParts(a, a).sum2
  {
    SharedKeepsMembers(Keys(Tokenize(a)), Keys(Tokenize(a)));
  }

  // ---------------------------------------------------------------------
  // Properties of the similarity.
  // ---------------------------------------------------------------------

  lemma RealMulMono(k: real, u: real, v: real)
    requires 0.0 <= k && u <= v
    ensures k * u <= k * v
  {
  }

  lemma RealMulStrict(k: real, u: real, v: real)
    requires 0.0 < k && u < v
    ensures k * u < k * v
  {
  }

  lemma RealProductPositive(u: real, v: real)
    requires 0.0 < u && 0.0 < v
    ensures 0.0 < u * v
  {
  }

  /** The denominator squared is `sum1 * sum2`. */
  lemma DenominatorSquared(p: Parts, sqrt: nat -> real)
    requires IsSqrt(sqrt)
    ensures 0.0 <= sqrt(p.sum1) * sqrt(p.sum2)
    ensures (sqrt(p.sum1) * sqrt(p.sum2)) * (sqrt(p.sum1) * sqrt(p.sum2)) == (p.sum1 * p.sum2) as real
  {
    var r1, r2 := sqrt(p.sum1), sqrt(p.sum2);
    assert r1 * r1 == p.sum1 as real && r2 * r2 == p.sum2 as real;
    RealMulMono(r1, 0.0, r2);
    assert (r1 * r2) * (r1 * r2) == (r1 * r1) * (r2 * r2);
  }

  lemma RatioAtMostOne(n: real, d: real)
    requires 0.0 <= n && 0.0 < d && n * n <= d * d
    ensures 0.0 <= n / d <= 1.0
  {
    if d < n {
      RealMulStrict(d, d, n);
      RealMulStrict(n, d, n);
    }
    assert n <= d;
    assert n / d <= d / d;
  }

  /** The quotient of any parts that satisfy Cauchy-Schwarz lies in [0, 1]. */
  lemma QuotientRange(p: Parts, sqrt: nat -> real)
    requires IsSqrt(sqrt)
    requires p.numerator * p.numerator <= p.sum1 * p.sum2
    ensures 0.0 <= Quotient(p, sqrt) <= 1.0
  {
    var d := sqrt(p.sum1) * sqrt(p.sum2);
    if d != 0.0 {
      DenominatorSquared(p, sqrt);
      var n := p.numerator as real;
      assert n * n == (p.numerator * p.numerator) as real;
      RatioAtMostOne(n, d);
      assert Quotient(p, sqrt) == n / d;
    }
  }

  lemma QuotientSelf(p: Parts, sqrt: nat -> real)
    requires IsSqrt(sqrt)
    requires 0 < p.numerator == p.sum1 == p.sum2
    ensures Quotient(p, sqrt) == 1.0
  {
    var r := sqrt(p.sum1);
    var m := p.sum1 as real;
    assert r * r == m;
    assert m != 0.0;
    assert m / m == 1.0;
  }

  lemma QuotientSwap(p: Parts, q: Parts, sqrt: nat -> real)
    requires q == Parts(p.numerator, p.sum2, p.sum1)
    ensures Quotient(q, sqrt) == Quotient(p, sqrt)
  {
    assert sqrt(q.sum1) * sqrt(q.sum2) == sqrt(p.sum1) * sqrt(p.sum2);
  }

  /** The similarity lies in [0, 1]. */
  lemma CosineRange(a: string, b: string, sqrt: nat -> real)
    requires IsSqrt(sqrt)
    ensures 0.0 <= CosineSimilarity(a, b, sqrt) <= 1.0
  {
    PartsBound(a, b);
    QuotientRange(CosineParts(a, b), sqrt);
  }

  /** The similarity does not depend on the order of the two texts. */
  lemma CosineSymmetric(a: string, b: string, sqrt: nat -> real)
    ensures CosineSimilarity(a, b, sqrt) == CosineSimilarity(b, a, sqrt)
  {
    PartsSymmetric(a, b);
    QuotientSwap(CosineParts(a, b), CosineParts(b, a), sqrt);
  }

  /** A text with at least one token is perfectly similar to itself. */
  lemma CosineSelf(a: string, sqrt: nat -> real)
    requires IsSqrt(sqrt)
    requires Tokenize(a) != []
    ensures CosineSimilarity(a, a, sqrt) == 1.0
  {
    PartsSelf(a);
    SumOfSquaresZero(a, a);
    QuotientSelf(CosineParts(a, a), sqrt);
  }

  /** The denominator vanishes exactly when one of the sums of squares
      does, and then the quotient is `0.0`. */
  lemma DenominatorZero(p: Parts, sqrt: nat -> real)
    requires IsSqrt(sqrt)
    ensures sqrt(p.sum1) * sqrt(p.sum2) == 0.0 <==> p.sum1 == 0 || p.sum2 == 0
    ensures p.sum1 == 0 || p.sum2 == 0 ==> Quotient(p, sqrt) == 0.0
  {
    var r1, r2 := sqrt(p.sum1), sqrt(p.sum2);
    assert r1 == 0.0 <==> p.sum1 == 0;
    assert r2 == 0.0 <==> p.sum2 == 0;
    if r1 != 0.0 && r2 != 0.0 {
      RealProductPositive(r1, r2);
    }
  }

  /** When either text has no tokens the denominator is zero and the result
      is exactly 0.0; otherwise the denominator is non-zero. */
  lemma CosineDegenerate(a: string, b: string, sqrt: nat -> real)
    requires IsSqrt(sqrt)
    ensures var p := CosineParts(a, b);
            (sqrt(p.sum1) * sqrt(p.sum2) == 0.0 <==> Tokenize(a) == [] || Tokenize(b) == [])
    ensures Tokenize(a) == [] || Tokenize(b) == [] ==> CosineSimilarity(a, b, sqrt) == 0.0
  {
    SumOfSquaresZero(a, b);
    DenominatorZero(CosineParts(a, b), sqrt);
  }
}
