/** evaluate.py: the token-overlap F1 score used to grade answers. The
    embedding-based similarity and the evaluation driver are not part of this
    model. */
module Evaluate {
  import opened Text

  /** `set(s.lower().split())`. */
  function TokenSet(s: string): set<string>
  {
    set w | w in Words(Lower(s))
  }

  /** The harmonic mean of the two ratios `c/p` and `c/t` is `2c/(p+t)`. */
  lemma HarmonicOfRatios(c: real, p: real, t: real)
    requires 0.0 < c && 0.0 < p && 0.0 < t
    ensures 2.0 * ((c / p) * (c / t)) / ((c / p) + (c / t)) == 2.0 * c / (p + t)
  {
  }

  lemma RatioInUnit(x: real, y: real)
    requires 0.0 < y && 0.0 <= x <= y
    ensures 0.0 <= x / y <= 1.0
  {
  }

  /** The overlap never exceeds either token set. */
  lemma CommonBounded(p: set<string>, t: set<string>)
    ensures |p * t| <= |p| && |p * t| <= |t|
  {
    assert p * t <= p;
    assert p * t <= t;
    SubsetCard(p * t, p);
    SubsetCard(p * t, t);
  }

  lemma {:induction false} SubsetCard(a: set<string>, b: set<string>)
    requires a <= b
    ensures |a| <= |b|
    decreases |b|
  {
    if a != {} {
      var x :| x in a;
      SubsetCard(a - {x}, b - {x});
    }
  }

  /** `calculate_f1(predicted, truth)`: precision is the share of predicted
      tokens that occur in the truth, recall the share of truth tokens that
      were predicted, and the result their harmonic mean; 0.0 when either
      side has no token or when the two share none. */
  function CalculateF1(predicted: string, truth: string): (f1: real)
    ensures 0.0 <= f1 <= 1.0
  {
    var predictedTokens := TokenSet(predicted);
    var truthTokens := TokenSet(truth);
    if |predictedTokens| == 0 || |truthTokens| == 0 then 0.0
    else
      var common := predictedTokens * truthTokens;
      CommonBounded(predictedTokens, truthTokens);
      var precision := |common| as real / |predictedTokens| as real;
      var recall := |common| as real / |truthTokens| as real;
      if precision + recall == 0.0 then 0.0
      else
        var c := |common| as real;
        assert c > 0.0;
        HarmonicOfRatios(c, |predictedTokens| as real, |truthTokens| as real);
        RatioInUnit(2.0 * c, (|predictedTokens| + |truthTokens|) as real);
        2.0 * (precision * recall) / (precision + recall)
  }

  /** With at least one shared token the score is twice the overlap over the
      total size of the two token sets, and it is 0.0 exactly when no token
      is shared (in particular when either side has no token). */
  lemma F1ClosedForm(predicted: string, truth: string)
    ensures TokenSet(predicted) == {} || TokenSet(truth) == {} ==> CalculateF1(predicted, truth) == 0.0
    ensures var p := TokenSet(predicted); var t := TokenSet(truth);
            CalculateF1(predicted, truth) == 0.0 <==> p * t == {}
    ensures var p := TokenSet(predicted); var t := TokenSet(truth);
            p * t != {} ==>
              CalculateF1(predicted, truth) == 2.0 * (|p * t| as real) / ((|p| + |t|) as real)
  {
    var p := TokenSet(predicted);
    var t := TokenSet(truth);
    if p * t != {} {
      assert p != {} && t != {} by {
        var x :| x in p * t;
      }
      HarmonicOfRatios(|p * t| as real, |p| as real, |t| as real);
    }
  }

  /** Swapping prediction and ground truth does not change the score. */
  lemma F1Symmetric(a: string, b: string)
    ensures CalculateF1(a, b) == CalculateF1(b, a)
  {
    var p := TokenSet(a);
    var t := TokenSet(b);
    assert p * t == t * p;
    F1ClosedForm(a, b);
    F1ClosedForm(b, a);
  }

  /** A prediction with the same non-empty token set as the truth scores 1.0. */
  lemma F1Perfect(a: string, b: string)
    requires TokenSet(a) == TokenSet(b) && TokenSet(a) != {}
    ensures CalculateF1(a, b) == 1.0
  {
    var p := TokenSet(a);
    assert p * p == p;
    F1ClosedForm(a, b);
    assert |p| > 0;
  }

  /** Lower-casing the prediction first does not change the score. */
  lemma F1CaseInsensitive(a: string, b: string)
    ensures CalculateF1(Lower(a), b) == CalculateF1(a, b)
  {
    assert Lower(Lower(a)) == Lower(a);
  }

  /** A word followed by nothing or by whitespace is read as one whole word,
      whatever comes after that whitespace. */
  lemma {:induction false} WordLengthExtended(x: string, rest: string)
    requires x != [] && !IsSpace(x[0])
    requires rest == [] || IsSpace(rest[0])
    ensures WordLength(x + rest) == WordLength(x)
    decreases |x|
  {
    var s := x + rest;
    if |x| == 1 {
      assert |s| == 1 || s[1] == rest[0];
    } else {
      assert s[1] == x[1];
      assert s[1..] == x[1..] + rest;
      if !IsSpace(x[1]) {
        WordLengthExtended(x[1..], rest);
      }
    }
  }

  /** Splitting two texts joined by a space gives the words of each in turn. */
  lemma {:induction false} WordsAroundSpace(x: string, y: string)
    ensures Words(x + " " + y) == Words(x) + Words(y)
    decreases |x|
  {
    var s := x + " " + y;
    if x == [] {
      assert s == [' '] + y;
      assert s[1..] == y;
    } else if IsSpace(x[0]) {
      assert s[1..] == x[1..] + " " + y;
      WordsAroundSpace(x[1..], y);
    } else {
      var rest := [' '] + y;
      assert s == x + rest;
      WordLengthExtended(x, rest);
      var n := WordLength(x);
      SlicesOfAppend(x, rest, n);
      assert x[n..] + rest == x[n..] + " " + y;
      calc {
        Words(s);
        [s[..n]] + Words(s[n..]);
        [x[..n]] + Words(x[n..] + " " + y);
        { WordsAroundSpace(x[n..], y); }
        [x[..n]] + (Words(x[n..]) + Words(y));
        ([x[..n]] + Words(x[n..])) + Words(y);
        Words(x) + Words(y);
      }
    }
  }

  /** Cutting a concatenation inside its first operand. */
  lemma SlicesOfAppend(x: string, rest: string, n: nat)
    requires n <= |x|
    ensures (x + rest)[..n] == x[..n]
    ensures (x + rest)[n..] == x[n..] + rest
  {
    assert (x + rest)[..n] == x[..n];
    assert (x + rest)[n..] == x[n..] + rest;
  }

  /** A text repeated after a space has the same token set as the text. */
  lemma TokenSetOfRepetition(a: string)
    ensures TokenSet(a + " " + a) == TokenSet(a)
  {
    var l := Lower(a);
    assert Lower(a + " " + a) == l + " " + l;
    WordsAroundSpace(l, l);
    assert forall w :: w in Words(l) + Words(l) <==> w in Words(l);
  }

  /** Repeating the prediction does not change the score: tokens are counted
      once however often they occur. */
  lemma F1IgnoresRepetition(a: string, b: string)
    ensures CalculateF1(a + " " + a, b) == CalculateF1(a, b)
  {
    TokenSetOfRepetition(a);
  }
}
