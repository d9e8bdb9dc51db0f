/**
 * The scores `prediction` computes and the label it picks, as functions of
 * the tables a trained classifier holds. `ln` stands for the natural
 * logarithm applied to a quotient; a score is a sum of its values, as
 * `prediction` adds the stored logarithms.
 */
module Scoring {
  import opened SortedStrings
  import opened Corpus
  import opened Tables
  import opened Decision

  /** What `prediction` reads: the vocabulary, the label set, the post count and the two quotient tables. */
  datatype Params = Params(
    uniqueWord: seq<string>,
    uniqueLabel: seq<string>,
    numPost: nat,
    logPrior: map<string, Fraction>,
    logLikelihood: map<(string, string), Fraction>)

  /** `log_prior[c]`: the stored value, or 0 when the label has none. */
  function PriorTerm(m: Params, c: string, ln: Fraction -> real): real {
    if c in m.logPrior then ln(m.logPrior[c]) else 0.0
  }

  /** What one test word adds to the score of label `c`: `log(1 / num_post)` when unseen, else `log_likelihood[(c, w)]`. */
  function WordTerm(m: Params, c: string, w: string, ln: Fraction -> real): real {
    if w !in m.uniqueWord then ln(Fraction(1, m.numPost))
    else if (c, w) in m.logLikelihood then ln(m.logLikelihood[(c, w)])
    else 0.0
  }

  /** The score of label `c`: its prior term, then each word's term added in order. */
  function Score(m: Params, c: string, test: seq<string>, ln: Fraction -> real): real {
    if test == [] then PriorTerm(m, c, ln)
    else Score(m, c, test[..|test| - 1], ln) + WordTerm(m, c, test[|test| - 1], ln)
  }

  /** The scores of the labels `ls`, in order. */
  function Scores(m: Params, ls: seq<string>, test: seq<string>, ln: Fraction -> real): (r: seq<real>)
    ensures |r| == |ls| && forall i :: 0 <= i < |ls| ==> r[i] == Score(m, ls[i], test, ln)
  {
    if ls == [] then [] else Scores(m, ls[..|ls| - 1], test, ln) + [Score(m, ls[|ls| - 1], test, ln)]
  }

  /** The label `prediction` returns: the first, in set order, of those with the highest score. */
  function Predicted(m: Params, test: seq<string>, ln: Fraction -> real): string
    requires m.uniqueLabel != []
  {
    m.uniqueLabel[FirstMaxIndex(Scores(m, m.uniqueLabel, test, ln))]
  }

  /** The predicted label has the highest score, and every label before it in set order scores strictly less. */
  lemma PredictedIsFirstMax(m: Params, test: seq<string>, ln: Fraction -> real, c: string)
    requires m.uniqueLabel != [] && Sorted(m.uniqueLabel) && c in m.uniqueLabel
    ensures Predicted(m, test, ln) in m.uniqueLabel
    ensures Score(m, c, test, ln) <= Score(m, Predicted(m, test, ln), test, ln)
    ensures Less(c, Predicted(m, test, ln)) ==> Score(m, c, test, ln) < Score(m, Predicted(m, test, ln), test, ln)
  {
    var k := FirstMaxIndex(Scores(m, m.uniqueLabel, test, ln));
    var j :| 0 <= j < |m.uniqueLabel| && m.uniqueLabel[j] == c;
    SortedIndexOrder(m.uniqueLabel, j, k);
  }

  /** What `predict` reports for one test post: the label predicted from its distinct words, and that label's score. */
  function Report(m: Params, p: Post, ln: Fraction -> real): (string, real)
    requires m.uniqueLabel != []
  {
    var test := SortedWords(p.content);
    var c := Predicted(m, test, ln);
    (c, Score(m, c, test, ln))
  }

  /** The reports for the test posts, in order. */
  function Reports(m: Params, testData: seq<Post>, ln: Fraction -> real): (r: seq<(string, real)>)
    requires testData != [] ==> m.uniqueLabel != []
    ensures |r| == |testData|
    ensures forall i :: 0 <= i < |testData| ==> r[i] == Report(m, testData[i], ln)
  {
    if testData == [] then []
    else Reports(m, testData[..|testData| - 1], ln) + [Report(m, testData[|testData| - 1], ln)]
  }

  /** The number of test posts whose label is the one predicted from their distinct words. */
  function CorrectCount(m: Params, testData: seq<Post>, ln: Fraction -> real): (n: nat)
    requires testData != [] ==> m.uniqueLabel != []
    ensures n <= |testData|
  {
    if testData == [] then 0
    else
      var p := testData[|testData| - 1];
      CorrectCount(m, testData[..|testData| - 1], ln) + (if p.tag == Predicted(m, SortedWords(p.content), ln) then 1 else 0)
  }

  /** The test words that are in the vocabulary, in order. */
  function InVocabulary(m: Params, test: seq<string>): seq<string> {
    if test == [] then []
    else
      var rest := InVocabulary(m, test[..|test| - 1]);
      if test[|test| - 1] in m.uniqueWord then rest + [test[|test| - 1]] else rest
  }

  /** The number of test words outside the vocabulary. */
  function OovCount(m: Params, test: seq<string>): nat {
    if test == [] then 0
    else OovCount(m, test[..|test| - 1]) + (if test[|test| - 1] in m.uniqueWord then 0 else 1)
  }

  /** The filter keeps exactly the test words in the vocabulary, and counts the others. */
  lemma {:induction false} InVocabularyMembers(m: Params, test: seq<string>)
    ensures forall w :: w in InVocabulary(m, test) <==> w in test && w in m.uniqueWord
    ensures OovCount(m, test) + |InVocabulary(m, test)| == |test|
    decreases |test|
  {
    if test != [] {
      var init := test[..|test| - 1];
      InVocabularyMembers(m, init);
      assert test == init + [test[|test| - 1]];
    }
  }

  /** Filtering words none of which is in the vocabulary leaves nothing. */
  lemma {:induction false} NoneInVocabulary(m: Params, test: seq<string>)
    requires forall w :: w in test ==> w !in m.uniqueWord
    ensures InVocabulary(m, test) == []
    decreases |test|
  {
    if test != [] {
      var init := test[..|test| - 1];
      assert forall w :: w in init ==> w in test;
      NoneInVocabulary(m, init);
      assert test[|test| - 1] in test;
    }
  }

  /** `n` copies of `u` added together. */
  function Repeated(n: nat, u: real): real {
    if n == 0 then 0.0 else Repeated(n - 1, u) + u
  }

  /** Scoring one more word adds that word's term. */
  lemma ScoreAppend(m: Params, c: string, test: seq<string>, w: string, ln: Fraction -> real)
    ensures Score(m, c, test + [w], ln) == Score(m, c, test, ln) + WordTerm(m, c, w, ln)
  {
    assert (test + [w])[..|test|] == test;
  }

  /** Every out-of-vocabulary word adds the same `ln(1 / num_post)`, whatever the label. */
  lemma {:induction false} OovTermsAreUniform(m: Params, c: string, test: seq<string>, ln: Fraction -> real)
    ensures Score(m, c, test, ln)
         == Score(m, c, InVocabulary(m, test), ln) + Repeated(OovCount(m, test), ln(Fraction(1, m.numPost)))
    decreases |test|
  {
    if test != [] {
      var init, w := test[..|test| - 1], test[|test| - 1];
      var u := ln(Fraction(1, m.numPost));
      var v, n := InVocabulary(m, init), OovCount(m, init);
      var before, term := Score(m, c, init, ln), WordTerm(m, c, w, ln);
      OovTermsAreUniform(m, c, init, ln);
      assert test == init + [w];
      ScoreAppend(m, c, init, w, ln);
      assert Score(m, c, test, ln) == before + term;
      if w in m.uniqueWord {
        assert InVocabulary(m, test) == v + [w] && OovCount(m, test) == n;
        ScoreAppend(m, c, v, w, ln);
      } else {
        assert InVocabulary(m, test) == v && OovCount(m, test) == n + 1;
        assert term == u;
        assert Repeated(n + 1, u) == Repeated(n, u) + u;
      }
    }
  }

  /** Out-of-vocabulary words never change which label is predicted. */
  lemma OovNeverDecides(m: Params, test: seq<string>, ln: Fraction -> real)
    requires m.uniqueLabel != []
    ensures Predicted(m, test, ln) == Predicted(m, InVocabulary(m, test), ln)
  {
    var d := Repeated(OovCount(m, test), ln(Fraction(1, m.numPost)));
    var s, t := Scores(m, m.uniqueLabel, InVocabulary(m, test), ln), Scores(m, m.uniqueLabel, test, ln);
    forall i | 0 <= i < |m.uniqueLabel| ensures t[i] == s[i] + d {
      OovTermsAreUniform(m, m.uniqueLabel[i], test, ln);
    }
    FirstMaxShift(s, t, d);
  }

  /** A post made only of unseen words is classified by the priors alone. */
  lemma UnseenWordsFollowPriors(m: Params, test: seq<string>, ln: Fraction -> real)
    requires m.uniqueLabel != []
    requires forall w :: w in test ==> w !in m.uniqueWord
    ensures Predicted(m, test, ln) == Predicted(m, [], ln)
  {
    OovNeverDecides(m, test, ln);
    NoneInVocabulary(m, test);
  }
}
