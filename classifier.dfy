/**
 * The `Classifier` object: its constructor, `unique_words`, `train` with the
 * `*_impl` steps that fill its tables in place, and `prediction` / `predict`.
 */
module NaiveBayes {
  import opened Tokenizer
  import opened SortedStrings
  import opened Corpus
  import opened Tables
  import opened Decision
  import opened Scoring

  class Classifier {
    /** The training posts and their number, fixed at construction. */
    const trainData: seq<Post>
    const numPost: nat

    /** The space-joined texts and labels `train` accumulates. */
    var words: string
    var labels: string
    /** The vocabulary and the label set (`std::set<string>`, kept in iteration order). */
    var uniqueWord: seq<string>
    var uniqueLabel: seq<string>
    var wordSize: nat
    /** One (label, word) per post per distinct word, and one label per post. */
    var labelWord: multiset<(string, string)>
    var labelsSet: multiset<string>
    /** The count tables; the source stores these whole numbers as `double`. */
    var numPostsWord: map<string, nat>
    var numPostsLabel: map<string, nat>
    var numPostsLabelWord: map<(string, string), nat>
    /** The quotients whose natural logarithms the source stores. */
    var logPrior: map<string, Fraction>
    var logLikelihood: map<(string, string), Fraction>

    /** The post count is that of the training data, and the two sets iterate in increasing order. */
    ghost predicate Valid()
      reads this
    {
      numPost == |trainData| && Sorted(uniqueWord) && Sorted(uniqueLabel)
    }

    /** The state of a freshly constructed classifier. */
    ghost predicate Untrained()
      reads this
    {
      && words == [] && labels == []
      && uniqueWord == [] && uniqueLabel == []
      && labelWord == multiset{} && labelsSet == multiset{}
      && numPostsWord == map[] && numPostsLabel == map[] && numPostsLabelWord == map[]
      && logPrior == map[] && logLikelihood == map[]
    }

    /** What the loop over the posts in `train` leaves behind. */
    ghost predicate Accumulated()
      reads this
    {
      && words == Joined(Contents(trainData))
      && labels == Joined(Labels(trainData))
      && labelWord == LabelWordOccurrences(trainData)
      && labelsSet == LabelOccurrences(trainData)
    }

    /** Every table is the one the `*_impl` steps compute from the fields it depends on. */
    ghost predicate TablesFilled()
      reads this
    {
      && numPostsWord == WordCountTable(labelWord, uniqueLabel, uniqueWord)
      && numPostsLabel == LabelCountTable(labelsSet, uniqueLabel)
      && logPrior == PriorTable(numPostsLabel, uniqueLabel, numPost)
      && numPostsLabelWord == PairCountTable(labelWord, uniqueLabel, uniqueWord)
      && logLikelihood == LikelihoodTable(numPostsLabelWord, numPostsLabel, numPostsWord, numPost)
    }

    /** The state after one `train` on `trainData`. */
    ghost predicate Trained()
      reads this
    {
      && Accumulated()
      && uniqueWord == Vocabulary(trainData)
      && uniqueLabel == LabelList(trainData)
      && wordSize == |uniqueWord|
      && TablesFilled()
    }

    /** After training, every table is the corresponding table of the training posts. */
    lemma TrainedTables()
      requires Trained() && Valid()
      ensures numPostsWord == WordCounts(trainData)
      ensures numPostsLabel == LabelCounts(trainData)
      ensures logPrior == Priors(trainData)
      ensures numPostsLabelWord == PairCounts(trainData)
      ensures logLikelihood == Likelihoods(trainData)
    {
    }

    constructor (trainDataIn: seq<Post>)
      ensures trainData == trainDataIn && numPost == |trainDataIn|
      ensures Untrained() && Valid()
    {
      trainData := trainDataIn;
      numPost := |trainDataIn|;
      words, labels := "", "";
      uniqueWord, uniqueLabel := [], [];
      wordSize := 0;
      labelWord, labelsSet := multiset{}, multiset{};
      numPostsWord, numPostsLabel, numPostsLabelWord := map[], map[], map[];
      logPrior, logLikelihood := map[], map[];
    }

    /**
     * One `source >> word` on a stream positioned at `pos`: skips whitespace,
     * then reads the run of non-whitespace characters. Fails at the end of input.
     */
    static method ReadWord(str: string, pos: nat) returns (ok: bool, word: string, next: nat)
      requires pos <= |str|
      ensures pos <= next <= |str|
      ensures ok <==> Tokens(str[pos..]) != []
      ensures ok ==> pos < next && Tokens(str[pos..]) == [word] + Tokens(str[next..])
    {
      var i := SkipSpace(str, pos);
      if i == |str| {
        assert str[i..] == [];
        return false, "", i;
      }
      ok := true;
      word, next := ReadRun(str, i);
    }

    /** The whitespace skipping of the extraction: stops at the end or at a non-whitespace character. */
    static method SkipSpace(str: string, pos: nat) returns (i: nat)
      requires pos <= |str|
      ensures pos <= i <= |str| && (i == |str| || !IsSpace(str[i]))
      ensures Tokens(str[i..]) == Tokens(str[pos..])
    {
      i := pos;
      while i < |str| && IsSpace(str[i])
        invariant pos <= i <= |str|
        invariant Tokens(str[i..]) == Tokens(str[pos..])
      {
        TokensAfterSpace(str, i);
        i := i + 1;
      }
    }

    /** The reading part of the extraction: the run of non-whitespace characters starting at `i`. */
    static method ReadRun(str: string, i: nat) returns (word: string, j: nat)
      requires i < |str| && !IsSpace(str[i])
      ensures i < j <= |str| && Tokens(str[i..]) == [word] + Tokens(str[j..])
    {
      word := "";
      j := i;
      while j < |str| && !IsSpace(str[j])
        invariant i <= j <= |str|
        invariant word == str[i..j]
        invariant forall k :: i <= k < j ==> !IsSpace(str[k])
      {
        word := word + [str[j]];
        j := j + 1;
      }
      TokensAtWord(str, i, j);
    }

    /** `unique_words`: the distinct whitespace-delimited words of `str`, in set order. */
    method UniqueWords(str: string) returns (result: seq<string>)
      ensures result == SortedWords(str)
      ensures Sorted(result) && forall w :: w in result <==> w in WordSet(str)
    {
      result := [];
      var pos := 0;
      var ok, word, next := ReadWord(str, pos);
      while ok
        invariant pos <= next <= |str|
        invariant Sorted(result)
        invariant InsertAll(result, Tokens(str[pos..])) == SortedWords(str)
        invariant ok <==> Tokens(str[pos..]) != []
        invariant ok ==> pos < next && Tokens(str[pos..]) == [word] + Tokens(str[next..])
        decreases |str| - pos
      {
        result := Insert(result, word);
        pos := next;
        ok, word, next := ReadWord(str, pos);
      }
    }

    /** `train`: accumulate the per-post occurrences, derive the two sets, then fill every table. */
    method Train()
      requires Untrained() && Valid()
      modifies this
      ensures Trained() && Valid()
    {
      AccumulatePosts();
      DeriveSets();
      FillTables();
    }

    /** The middle of `train`: the vocabulary and the label set, from the joined texts and labels. */
    method DeriveSets()
      modifies this`uniqueWord, this`uniqueLabel, this`wordSize
      ensures uniqueWord == SortedWords(words) && uniqueLabel == SortedWords(labels)
      ensures wordSize == |uniqueWord|
    {
      uniqueWord := UniqueWords(words);
      uniqueLabel := UniqueWords(labels);
      wordSize := |uniqueWord|;
    }

    /** The five `*_impl` calls that end `train`, in their order. */
    method FillTables()
      requires numPostsWord == map[] && numPostsLabel == map[] && numPostsLabelWord == map[]
      requires logPrior == map[] && logLikelihood == map[]
      modifies this`numPostsWord, this`numPostsLabel, this`logPrior, this`numPostsLabelWord, this`logLikelihood
      ensures numPostsWord == WordCountTable(labelWord, uniqueLabel, uniqueWord)
      ensures numPostsLabel == LabelCountTable(labelsSet, uniqueLabel)
      ensures logPrior == PriorTable(numPostsLabel, uniqueLabel, numPost)
      ensures numPostsLabelWord == PairCountTable(labelWord, uniqueLabel, uniqueWord)
      ensures logLikelihood == LikelihoodTable(numPostsLabelWord, numPostsLabel, numPostsWord, numPost)
    {
      FillLabelTables();
      FillPairTables();
    }

    /** The first three `*_impl` calls: word counts, label counts, priors. */
    method FillLabelTables()
      requires numPostsWord == map[] && numPostsLabel == map[] && logPrior == map[]
      modifies this`numPostsWord, this`numPostsLabel, this`logPrior
      ensures numPostsWord == WordCountTable(labelWord, uniqueLabel, uniqueWord)
      ensures numPostsLabel == LabelCountTable(labelsSet, uniqueLabel)
      ensures logPrior == PriorTable(numPostsLabel, uniqueLabel, numPost)
    {
      NumPostsWordImpl();
      NumPostsLabelImpl();
      LogPriorImpl();
    }

    /** The last two `*_impl` calls: pair counts, likelihoods. */
    method FillPairTables()
      requires numPostsLabelWord == map[] && logLikelihood == map[]
      modifies this`numPostsLabelWord, this`logLikelihood
      ensures numPostsLabelWord == PairCountTable(labelWord, uniqueLabel, uniqueWord)
      ensures logLikelihood == LikelihoodTable(numPostsLabelWord, numPostsLabel, numPostsWord, numPost)
    {
      NumPostsLabelWordImpl();
      LogLikelihoodImpl();
    }

    /** The loop of `train` over the posts: appends to `words` and `labels` and records each post's label and (label, word) pairs. */
    method AccumulatePosts()
      requires words == [] && labels == [] && labelsSet == multiset{} && labelWord == multiset{}
      modifies this`words, this`labels, this`labelsSet, this`labelWord
      ensures Accumulated()
    {
      var i := 0;
      while i < |trainData|
        invariant 0 <= i <= |trainData|
        invariant (words, labels, labelsSet, labelWord) == Accumulate(trainData[..i])
      {
        var data := trainData[i];
        assert trainData[..i + 1][..i] == trainData[..i];
        AddPost(data);
        i := i + 1;
      }
      assert trainData[..i] == trainData;
      AccumulateParts(trainData);
    }

    /** One pass of that loop: the post's text, its label and its (label, word) pairs are added. */
    method AddPost(data: Post)
      modifies this`words, this`labels, this`labelsSet, this`labelWord
      ensures words == old(words) + " " + data.content
      ensures labels == old(labels) + " " + data.tag
      ensures labelsSet == old(labelsSet) + multiset{data.tag}
      ensures labelWord == old(labelWord) + multiset(PostPairs(data))
    {
      words := words + " " + data.content;
      labels := labels + " " + data.tag;
      labelsSet := labelsSet + multiset{data.tag};
      var wordsSet := UniqueWords(data.content);
      AddPostPairs(data, wordsSet);
    }

    /** The inner loop of `train`: one (label, word) occurrence per distinct word of the post. */
    method AddPostPairs(data: Post, wordsSet: seq<string>)
      requires wordsSet == SortedWords(data.content)
      modifies this`labelWord
      ensures labelWord == old(labelWord) + multiset(PostPairs(data))
    {
      var k := 0;
      while k < |wordsSet|
        invariant 0 <= k <= |wordsSet|
        invariant labelWord == old(labelWord) + multiset(Tagged(data.tag, wordsSet[..k]))
      {
        AddPair(wordsSet, k, data.tag);
        labelWord := labelWord + multiset{(data.tag, wordsSet[k])};
        k := k + 1;
      }
      assert wordsSet[..k] == wordsSet;
      assert Tagged(data.tag, wordsSet) == PostPairs(data);
    }

    /** The pairs of `c` with each element of `ws`. */
    static function Tagged(c: string, ws: seq<string>): set<(string, string)> {
      set w | w in ws :: (c, w)
    }

    /** Inserting the next distinct word of a post adds exactly one new (label, word) pair. */
    static lemma AddPair(ws: seq<string>, k: nat, c: string)
      requires Sorted(ws) && k < |ws|
      ensures multiset(Tagged(c, ws[..k + 1])) == multiset(Tagged(c, ws[..k])) + multiset{(c, ws[k])}
    {
      assert Tagged(c, ws[..k + 1]) == Tagged(c, ws[..k]) + {(c, ws[k])} by {
        assert ws[..k + 1] == ws[..k] + [ws[k]];
      }
      assert (c, ws[k]) !in Tagged(c, ws[..k]) by {
        if (c, ws[k]) in Tagged(c, ws[..k]) {
          var j :| 0 <= j < k && ws[j] == ws[k];
          SortedDistinct(ws, j, k);
        }
      }
    }

    /** `num_posts_word_impl`: for each word, its occurrences summed over the labels. */
    method NumPostsWordImpl()
      requires numPostsWord == map[]
      modifies this`numPostsWord
      ensures numPostsWord == WordCountTable(labelWord, uniqueLabel, uniqueWord)
    {
      for i := 0 to |uniqueWord|
        invariant numPostsWord == WordCountTable(labelWord, uniqueLabel, uniqueWord[..i])
      {
        var word := uniqueWord[i];
        var counts := 0;
        for j := 0 to |uniqueLabel|
          invariant counts == ColumnSum(labelWord, uniqueLabel[..j], word)
        {
          assert uniqueLabel[..j + 1][..j] == uniqueLabel[..j];
          counts := counts + labelWord[(uniqueLabel[j], word)];
        }
        assert uniqueLabel[..|uniqueLabel|] == uniqueLabel;
        assert uniqueWord[..i + 1] == uniqueWord[..i] + [word];
        if word !in numPostsWord {
          numPostsWord := numPostsWord[word := counts];
        }
      }
      assert uniqueWord[..|uniqueWord|] == uniqueWord;
    }

    /** `num_posts_label_impl`: for each label, its occurrences in the label multiset. */
    method NumPostsLabelImpl()
      requires numPostsLabel == map[]
      modifies this`numPostsLabel
      ensures numPostsLabel == LabelCountTable(labelsSet, uniqueLabel)
    {
      for i := 0 to |uniqueLabel|
        invariant numPostsLabel == LabelCountTable(labelsSet, uniqueLabel[..i])
      {
        var tag := uniqueLabel[i];
        var counts := labelsSet[tag];
        assert uniqueLabel[..i + 1] == uniqueLabel[..i] + [tag];
        if tag !in numPostsLabel {
          numPostsLabel := numPostsLabel[tag := counts];
        }
      }
      assert uniqueLabel[..|uniqueLabel|] == uniqueLabel;
    }

    /** `log_prior_impl`: for each label, posts with the label over all posts. */
    method LogPriorImpl()
      requires logPrior == map[]
      modifies this`logPrior
      ensures logPrior == PriorTable(numPostsLabel, uniqueLabel, numPost)
    {
      for i := 0 to |uniqueLabel|
        invariant logPrior == PriorTable(numPostsLabel, uniqueLabel[..i], numPost)
      {
        var tag := uniqueLabel[i];
        var prob := Fraction(Lookup(numPostsLabel, tag), numPost);
        assert uniqueLabel[..i + 1] == uniqueLabel[..i] + [tag];
        if tag !in logPrior {
          logPrior := logPrior[tag := prob];
        }
      }
      assert uniqueLabel[..|uniqueLabel|] == uniqueLabel;
    }

    /** `num_posts_label_word_impl`: an entry for every (label, word) pair, its occurrence count. */
    method NumPostsLabelWordImpl()
      requires numPostsLabelWord == map[]
      modifies this`numPostsLabelWord
      ensures numPostsLabelWord == PairCountTable(labelWord, uniqueLabel, uniqueWord)
    {
      for i := 0 to |uniqueLabel|
        invariant forall p :: p in numPostsLabelWord <==> p.0 in uniqueLabel[..i] && p.1 in uniqueWord
        invariant forall p :: p in numPostsLabelWord ==> numPostsLabelWord[p] == labelWord[p]
      {
        var tag := uniqueLabel[i];
        assert uniqueLabel[..i + 1] == uniqueLabel[..i] + [tag];
        for j := 0 to |uniqueWord|
          invariant forall p :: p in numPostsLabelWord <==>
            (p.0 in uniqueLabel[..i] && p.1 in uniqueWord) || (p.0 == tag && p.1 in uniqueWord[..j])
          invariant forall p :: p in numPostsLabelWord ==> numPostsLabelWord[p] == labelWord[p]
        {
          var word := uniqueWord[j];
          var lw := (tag, word);
          var counts := labelWord[lw];
          assert uniqueWord[..j + 1] == uniqueWord[..j] + [word];
          if lw !in numPostsLabelWord {
            numPostsLabelWord := numPostsLabelWord[lw := counts];
          }
        }
        assert uniqueWord[..|uniqueWord|] == uniqueWord;
      }
      assert uniqueLabel[..|uniqueLabel|] == uniqueLabel;
      forall p ensures p in numPostsLabelWord <==> p in Pairs(uniqueLabel, uniqueWord) {
        if p.0 in uniqueLabel && p.1 in uniqueWord {
          assert p == (p.0, p.1);
        }
      }
    }

    /** `log_likelihood_impl`: for each entry of the pair table, the two-branch quotient. */
    method LogLikelihoodImpl()
      requires logLikelihood == map[]
      modifies this`logLikelihood
      ensures logLikelihood == LikelihoodTable(numPostsLabelWord, numPostsLabel, numPostsWord, numPost)
    {
      var todo := numPostsLabelWord.Keys;
      while todo != {}
        invariant todo <= numPostsLabelWord.Keys
        invariant logLikelihood.Keys == numPostsLabelWord.Keys - todo
        invariant forall p :: p in logLikelihood ==>
          logLikelihood[p] == Likelihood(numPostsLabelWord[p], Lookup(numPostsLabel, p.0), Lookup(numPostsWord, p.1), numPost)
        decreases todo
      {
        var lw :| lw in todo;
        var logProb;
        if numPostsLabelWord[lw] != 0 {
          logProb := Fraction(numPostsLabelWord[lw], Lookup(numPostsLabel, lw.0));
        } else {
          logProb := Fraction(Lookup(numPostsWord, lw.1), numPost);
        }
        if lw !in logLikelihood {
          logLikelihood := logLikelihood[lw := logProb];
        }
        todo := todo - {lw};
      }
    }

    /** The tables `prediction` reads. */
    function Parameters(): Params
      reads this
    {
      Params(uniqueWord, uniqueLabel, numPost, logPrior, logLikelihood)
    }

    /**
     * `prediction`: score every label, then scan the scores in label order,
     * replacing the current best only by a strictly greater score.
     */
    method Prediction(testContent: seq<string>, ln: Fraction -> real) returns (tag: string, score: real)
      requires uniqueLabel != [] && Sorted(uniqueLabel)
      ensures tag == Predicted(Parameters(), testContent, ln)
      ensures score == Score(Parameters(), tag, testContent, ln)
    {
      var pred := ScoreLabels(testContent, ln);
      ghost var scores := Scores(Parameters(), uniqueLabel, testContent, ln);
      var best := 0;
      tag, score := uniqueLabel[0], pred[uniqueLabel[0]];
      for i := 0 to |uniqueLabel|
        invariant best < |uniqueLabel| && (i == 0 ==> best == 0) && (i > 0 ==> best < i)
        invariant tag == uniqueLabel[best] && score == scores[best]
        invariant forall j :: 0 <= j < i ==> scores[j] <= score
        invariant forall j :: 0 <= j < best ==> scores[j] < score
      {
        if pred[uniqueLabel[i]] > score {
          best := i;
          tag, score := uniqueLabel[i], pred[uniqueLabel[i]];
        }
      }
      FirstMaxUnique(scores, best);
    }

    /** The first loop of `prediction`: the map from each label to its score. */
    method ScoreLabels(testContent: seq<string>, ln: Fraction -> real) returns (pred: map<string, real>)
      requires Sorted(uniqueLabel)
      ensures forall c :: c in pred <==> c in uniqueLabel
      ensures forall c :: c in pred ==> pred[c] == Score(Parameters(), c, testContent, ln)
    {
      pred := map[];
      for i := 0 to |uniqueLabel|
        invariant forall c :: c in pred <==> c in uniqueLabel[..i]
        invariant forall c :: c in pred ==> pred[c] == Score(Parameters(), c, testContent, ln)
      {
        var c := uniqueLabel[i];
        var s := LabelScore(c, testContent, ln);
        assert uniqueLabel[..i + 1] == uniqueLabel[..i] + [c];
        if c !in pred {
          pred := pred[c := s];
        }
      }
      assert uniqueLabel[..|uniqueLabel|] == uniqueLabel;
    }

    /** The inner loop of `prediction`: one label's prior plus the term of each test word. */
    method LabelScore(c: string, testContent: seq<string>, ln: Fraction -> real) returns (s: real)
      ensures s == Score(Parameters(), c, testContent, ln)
    {
      ghost var m := Parameters();
      s := if c in logPrior then ln(logPrior[c]) else 0.0;
      for k := 0 to |testContent|
        invariant s == Score(m, c, testContent[..k], ln)
      {
        var word := testContent[k];
        assert testContent[..k + 1][..k] == testContent[..k];
        if word !in uniqueWord {
          s := s + ln(Fraction(1, numPost));
        } else {
          s := s + (if (c, word) in logLikelihood then ln(logLikelihood[(c, word)]) else 0.0);
        }
      }
      assert testContent[..|testContent|] == testContent;
    }

    /**
     * `predict`: classify each test post on its distinct words and count the
     * correct predictions; `results` holds each reported label and score.
     */
    method Predict(testData: seq<Post>, ln: Fraction -> real) returns (results: seq<(string, real)>, correct: nat)
      requires Sorted(uniqueLabel)
      requires testData != [] ==> uniqueLabel != []
      ensures results == Reports(Parameters(), testData, ln)
      ensures correct == CorrectCount(Parameters(), testData, ln) && correct <= |testData|
    {
      ghost var m := Parameters();
      results, correct := [], 0;
      for i := 0 to |testData|
        invariant results == Reports(m, testData[..i], ln)
        invariant correct == CorrectCount(m, testData[..i], ln)
      {
        var it := testData[i];
        var predTag, predScore := PredictPost(it, ln);
        assert testData[..i + 1][..i] == testData[..i];
        results := results + [(predTag, predScore)];
        if it.tag == predTag {
          correct := correct + 1;
        }
      }
      assert testData[..|testData|] == testData;
    }

    /** One pass of the loop of `predict`: the post's distinct words, then `prediction` on them. */
    method PredictPost(it: Post, ln: Fraction -> real) returns (predTag: string, predScore: real)
      requires uniqueLabel != [] && Sorted(uniqueLabel)
      ensures (predTag, predScore) == Report(Parameters(), it, ln)
    {
      var uniqueWordTest := UniqueWords(it.content);
      predTag, predScore := Prediction(uniqueWordTest, ln);
    }

    /** After training, every label has a prior and every (label, vocabulary word) a likelihood, so no default is read. */
    lemma TrainedTermsPresent(c: string, w: string)
      requires Trained() && c in uniqueLabel
      ensures c in logPrior
      ensures w in uniqueWord ==> (c, w) in logLikelihood
    {
      if w in uniqueWord {
        assert (c, w) in Pairs(uniqueLabel, uniqueWord);
      }
    }

    /** With single-word labels, every logarithm `prediction` takes after training is of a quotient in (0, 1]. */
    lemma TrainedTermsFinite(c: string, w: string)
      requires Trained() && Valid() && TokenLabels(trainData) && c in uniqueLabel
      ensures c in logPrior && InUnitInterval(logPrior[c])
      ensures w in uniqueWord ==> (c, w) in logLikelihood && InUnitInterval(logLikelihood[(c, w)])
    {
      TrainedTables();
      PriorFraction(trainData, c);
      if w in uniqueWord {
        LikelihoodNeverZero(trainData, c, w);
      }
    }

    /** `get_num_post`: the number of training posts. */
    function GetNumPost(): (n: nat)
      reads this
      ensures Valid() ==> n == |trainData|
    {
      numPost
    }

    /** `get_word_size`: after training, the number of distinct words in the training posts. */
    function GetWordSize(): (n: nat)
      reads this
      ensures Trained() ==> n == |Vocabulary(trainData)|
    {
      wordSize
    }
  }
}
