/**
 * The count tables `train` fills (`num_posts_word`, `num_posts_label`,
 * `num_posts_label_word`) and the fractions whose logarithms become
 * `log_prior` and `log_likelihood`, first as functions of the classifier's
 * intermediate state, then as functions of the training posts, with what
 * each entry counts.
 */
module Tables {
  import opened Tokenizer
  import opened SortedStrings
  import opened Corpus

  /** `m[k]` on a `std::map` of counts: the stored value, or the value-initialised 0 when `k` is absent. */
  function Lookup<K>(m: map<K, nat>, k: K): nat {
    if k in m then m[k] else 0
  }

  /** A probability kept as the quotient it is computed from, before `log` is applied to it. */
  datatype Fraction = Fraction(num: nat, den: nat)

  /** A quotient in (0, 1]: its logarithm is finite and at most 0. */
  predicate InUnitInterval(f: Fraction) {
    0 < f.num <= f.den
  }

  /** Sum over the labels `ls`, in order, of the occurrences of (label, w) in `lw`. */
  function ColumnSum(lw: multiset<(string, string)>, ls: seq<string>, w: string): nat {
    if ls == [] then 0 else ColumnSum(lw, ls[..|ls| - 1], w) + lw[(ls[|ls| - 1], w)]
  }

  /** Sum over the labels `ls`, in order, of the table entries for (label, w). */
  function PairColumnSum(t: map<(string, string), nat>, ls: seq<string>, w: string): nat {
    if ls == [] then 0 else PairColumnSum(t, ls[..|ls| - 1], w) + Lookup(t, (ls[|ls| - 1], w))
  }

  /** Sum over the labels `ls`, in order, of the table entries for each label. */
  function LabelSum(t: map<string, nat>, ls: seq<string>): nat {
    if ls == [] then 0 else LabelSum(t, ls[..|ls| - 1]) + Lookup(t, ls[|ls| - 1])
  }

  /** `num_posts_word`: for each word, its occurrences summed over the labels. */
  function WordCountTable(lw: multiset<(string, string)>, ls: seq<string>, ws: seq<string>): map<string, nat> {
    map w | w in ws :: ColumnSum(lw, ls, w)
  }

  /** `num_posts_label`: for each label, its occurrences in the label multiset. */
  function LabelCountTable(lm: multiset<string>, ls: seq<string>): map<string, nat> {
    map c | c in ls :: lm[c]
  }

  /** The quotients behind `log_prior`: posts with the label over all posts. */
  function PriorTable(labelCounts: map<string, nat>, ls: seq<string>, numPost: nat): map<string, Fraction> {
    map c | c in ls :: Fraction(Lookup(labelCounts, c), numPost)
  }

  /** Every (label, word) pair of the two sets. */
  function Pairs(ls: seq<string>, ws: seq<string>): set<(string, string)> {
    set c, w | c in ls && w in ws :: (c, w)
  }

  /** `num_posts_label_word`: an entry for every (label, word) pair, its occurrence count or 0. */
  function PairCountTable(lw: multiset<(string, string)>, ls: seq<string>, ws: seq<string>): map<(string, string), nat> {
    map p | p in Pairs(ls, ws) :: lw[p]
  }

  /**
   * The quotient whose logarithm `log_likelihood_impl` stores for one pair:
   * count / posts-with-label when the pair was seen, and otherwise the
   * back-off posts-with-word / all posts.
   */
  function Likelihood(count: nat, labelCount: nat, wordCount: nat, numPost: nat): Fraction {
    if count != 0 then Fraction(count, labelCount) else Fraction(wordCount, numPost)
  }

  /** The quotients behind `log_likelihood`, one per entry of the pair table. */
  function LikelihoodTable(pairCounts: map<(string, string), nat>, labelCounts: map<string, nat>,
                           wordCounts: map<string, nat>, numPost: nat): map<(string, string), Fraction>
  {
    map p | p in pairCounts :: Likelihood(pairCounts[p], Lookup(labelCounts, p.0), Lookup(wordCounts, p.1), numPost)
  }

  // The tables of a classifier trained on `posts`.

  function WordCounts(posts: seq<Post>): map<string, nat> {
    WordCountTable(LabelWordOccurrences(posts), LabelList(posts), Vocabulary(posts))
  }

  function LabelCounts(posts: seq<Post>): map<string, nat> {
    LabelCountTable(LabelOccurrences(posts), LabelList(posts))
  }

  function Priors(posts: seq<Post>): map<string, Fraction> {
    PriorTable(LabelCounts(posts), LabelList(posts), |posts|)
  }

  function PairCounts(posts: seq<Post>): map<(string, string), nat> {
    PairCountTable(LabelWordOccurrences(posts), LabelList(posts), Vocabulary(posts))
  }

  function Likelihoods(posts: seq<Post>): map<(string, string), Fraction> {
    LikelihoodTable(PairCounts(posts), LabelCounts(posts), WordCounts(posts), |posts|)
  }

  /** With no training posts there is no label and no word, so every table is empty and no quotient is formed. */
  lemma EmptyTrainingBuildsNothing()
    ensures LabelList([]) == [] && Vocabulary([]) == []
    ensures WordCounts([]) == map[] && LabelCounts([]) == map[] && PairCounts([]) == map[]
    ensures Priors([]) == map[] && Likelihoods([]) == map[]
  {
    assert Joined(Labels([])) == [] && Joined(Contents([])) == [];
  }

  // Counting posts by groups of labels.

  /** The number of posts whose label is one of `ls`. */
  function PostsLabelledIn(posts: seq<Post>, ls: seq<string>): nat {
    if posts == [] then 0
    else PostsLabelledIn(posts[..|posts| - 1], ls) + (if posts[|posts| - 1].tag in ls then 1 else 0)
  }

  /** The number of posts whose label is one of `ls` and that contain `w`. */
  function PostsWithWordLabelledIn(posts: seq<Post>, ls: seq<string>, w: string): nat {
    if posts == [] then 0
    else
      var p := posts[|posts| - 1];
      PostsWithWordLabelledIn(posts[..|posts| - 1], ls, w) + (if p.tag in ls && w in WordSet(p.content) then 1 else 0)
  }

  lemma {:induction false} LabelledInSplit(posts: seq<Post>, ls: seq<string>, c: string)
    requires c !in ls
    ensures PostsLabelledIn(posts, ls + [c]) == PostsLabelledIn(posts, ls) + PostsWithLabel(posts, c)
  {
    if posts != [] {
      LabelledInSplit(posts[..|posts| - 1], ls, c);
    }
  }

  lemma {:induction false} WordLabelledInSplit(posts: seq<Post>, ls: seq<string>, c: string, w: string)
    requires c !in ls
    ensures PostsWithWordLabelledIn(posts, ls + [c], w)
         == PostsWithWordLabelledIn(posts, ls, w) + PostsWithLabelAndWord(posts, c, w)
  {
    if posts != [] {
      WordLabelledInSplit(posts[..|posts| - 1], ls, c, w);
    }
  }

  /** When `ls` holds every post's label, grouping by `ls` counts every post. */
  lemma {:induction false} LabelledInAll(posts: seq<Post>, ls: seq<string>, w: string)
    requires forall i :: 0 <= i < |posts| ==> posts[i].tag in ls
    ensures PostsLabelledIn(posts, ls) == |posts|
    ensures PostsWithWordLabelledIn(posts, ls, w) == PostsWithWord(posts, w)
  {
    if posts != [] {
      var init := posts[..|posts| - 1];
      assert forall i :: 0 <= i < |init| ==> init[i] == posts[i];
      LabelledInAll(init, ls, w);
    }
  }

  lemma {:induction false} LabelledInNone(posts: seq<Post>, w: string)
    ensures PostsLabelledIn(posts, []) == 0
    ensures PostsWithWordLabelledIn(posts, [], w) == 0
  {
    if posts != [] {
      LabelledInNone(posts[..|posts| - 1], w);
    }
  }

  lemma SortedLastIsNew(ls: seq<string>)
    requires Sorted(ls) && ls != []
    ensures ls[|ls| - 1] !in ls[..|ls| - 1]
    ensures Sorted(ls[..|ls| - 1])
  {
    if ls[|ls| - 1] in ls[..|ls| - 1] {
      var i :| 0 <= i < |ls| - 1 && ls[i] == ls[|ls| - 1];
      SortedDistinct(ls, i, |ls| - 1);
    }
  }

  /** Summing the label table over distinct labels counts the posts with those labels. */
  lemma {:induction false} LabelSumCountsPosts(posts: seq<Post>, ls: seq<string>)
    requires Sorted(ls)
    requires forall c :: c in ls ==> c in LabelList(posts)
    ensures LabelSum(LabelCounts(posts), ls) == PostsLabelledIn(posts, ls)
  {
    if ls == [] {
      LabelledInNone(posts, "");
    } else {
      var init, c := ls[..|ls| - 1], ls[|ls| - 1];
      SortedLastIsNew(ls);
      LabelSumCountsPosts(posts, init);
      LabelOccurrencesCountPosts(posts, c);
      LabelledInSplit(posts, init, c);
      assert ls == init + [c];
    }
  }

  /** Summing the occurrences of (label, w) over distinct labels counts the posts with those labels containing `w`. */
  lemma {:induction false} ColumnSumCountsPosts(posts: seq<Post>, ls: seq<string>, w: string)
    requires Sorted(ls)
    ensures ColumnSum(LabelWordOccurrences(posts), ls, w) == PostsWithWordLabelledIn(posts, ls, w)
  {
    if ls == [] {
      LabelledInNone(posts, w);
    } else {
      var init, c := ls[..|ls| - 1], ls[|ls| - 1];
      SortedLastIsNew(ls);
      ColumnSumCountsPosts(posts, init, w);
      OccurrencesCountPosts(posts, c, w);
      WordLabelledInSplit(posts, init, c, w);
      assert ls == init + [c];
    }
  }

  /** Summing a word's column of the pair table is summing its occurrences. */
  lemma {:induction false} PairColumnSumIsColumnSum(posts: seq<Post>, ls: seq<string>, w: string)
    requires forall c :: c in ls ==> c in LabelList(posts)
    requires w in Vocabulary(posts)
    ensures PairColumnSum(PairCounts(posts), ls, w) == ColumnSum(LabelWordOccurrences(posts), ls, w)
  {
    if ls != [] {
      var c := ls[|ls| - 1];
      PairColumnSumIsColumnSum(posts, ls[..|ls| - 1], w);
      assert (c, w) in Pairs(LabelList(posts), Vocabulary(posts));
    }
  }

  /** `num_posts_label` has an entry for each label: the number of posts with it. */
  lemma LabelCountsArePostCounts(posts: seq<Post>, c: string)
    ensures c in LabelCounts(posts) <==> c in LabelList(posts)
    ensures c in LabelList(posts) ==> LabelCounts(posts)[c] == PostsWithLabel(posts, c)
  {
    LabelOccurrencesCountPosts(posts, c);
  }

  /** With single-word labels, the label counts add up to the number of posts. */
  lemma LabelCountsTotal(posts: seq<Post>)
    requires TokenLabels(posts)
    ensures LabelSum(LabelCounts(posts), LabelList(posts)) == |posts|
  {
    LabelSumCountsPosts(posts, LabelList(posts));
    forall i | 0 <= i < |posts| ensures posts[i].tag in LabelList(posts) {
      LabelListIsPostLabels(posts, posts[i].tag);
    }
    LabelledInAll(posts, LabelList(posts), "");
  }

  /** `num_posts_word[w]` is the sum over labels of `num_posts_label_word[(label, w)]`. */
  lemma WordCountIsPairColumn(posts: seq<Post>, w: string)
    requires w in Vocabulary(posts)
    ensures w in WordCounts(posts)
    ensures WordCounts(posts)[w] == PairColumnSum(PairCounts(posts), LabelList(posts), w)
  {
    PairColumnSumIsColumnSum(posts, LabelList(posts), w);
  }

  /** With single-word labels, `num_posts_word[w]` is the number of posts containing `w`: at least 1, at most all. */
  lemma WordCountsArePostCounts(posts: seq<Post>, w: string)
    requires TokenLabels(posts)
    requires w in Vocabulary(posts)
    ensures w in WordCounts(posts)
    ensures WordCounts(posts)[w] == PostsWithWord(posts, w)
    ensures 1 <= WordCounts(posts)[w] <= |posts|
  {
    ColumnSumCountsPosts(posts, LabelList(posts), w);
    forall i | 0 <= i < |posts| ensures posts[i].tag in LabelList(posts) {
      LabelListIsPostLabels(posts, posts[i].tag);
    }
    LabelledInAll(posts, LabelList(posts), w);
    VocabularyIsPostWords(posts, w);
    WordCountBounds(posts, w);
  }

  /**
   * `num_posts_label_word` has an entry exactly for every pair of a label and
   * a vocabulary word: the number of posts with the label containing the word,
   * 0 when they never co-occurred, never more than the posts with the label.
   */
  lemma PairCountsArePostCounts(posts: seq<Post>, c: string, w: string)
    ensures (c, w) in PairCounts(posts) <==> c in LabelList(posts) && w in Vocabulary(posts)
    ensures (c, w) in PairCounts(posts) ==> PairCounts(posts)[(c, w)] == PostsWithLabelAndWord(posts, c, w)
    ensures (c, w) in PairCounts(posts) ==> PairCounts(posts)[(c, w)] <= PostsWithLabel(posts, c)
  {
    if c in LabelList(posts) && w in Vocabulary(posts) {
      assert (c, w) in Pairs(LabelList(posts), Vocabulary(posts));
    }
    OccurrencesCountPosts(posts, c, w);
    PairCountBoundedByLabelCount(posts, c, w);
  }

  /** The prior of a label is posts-with-label over all posts; with single-word labels it lies in (0, 1]. */
  lemma PriorFraction(posts: seq<Post>, c: string)
    requires c in LabelList(posts)
    ensures c in Priors(posts)
    ensures Priors(posts)[c] == Fraction(PostsWithLabel(posts, c), |posts|)
    ensures TokenLabels(posts) ==> InUnitInterval(Priors(posts)[c])
  {
    LabelCountsArePostCounts(posts, c);
    if TokenLabels(posts) {
      LabelListIsPostLabels(posts, c);
      var i :| 0 <= i < |posts| && posts[i].tag == c;
      PostsWithLabelPositive(posts, c, i);
      LabelCountsTotal(posts);
      PostsWithLabelBounded(posts, c);
    }
  }

  lemma {:induction false} PostsWithLabelPositive(posts: seq<Post>, c: string, i: int)
    requires 0 <= i < |posts| && posts[i].tag == c
    ensures PostsWithLabel(posts, c) > 0
  {
    if i < |posts| - 1 {
      PostsWithLabelPositive(posts[..|posts| - 1], c, i);
    }
  }

  lemma {:induction false} PostsWithLabelBounded(posts: seq<Post>, c: string)
    ensures PostsWithLabel(posts, c) <= |posts|
  {
    if posts != [] {
      PostsWithLabelBounded(posts[..|posts| - 1], c);
    }
  }

  /**
   * The likelihood quotient of a (label, word) pair follows the two-branch
   * rule: count / posts-with-label when the pair co-occurred, which lies in
   * (0, 1]; otherwise posts-with-word / all posts.
   */
  lemma LikelihoodChoice(posts: seq<Post>, c: string, w: string)
    requires c in LabelList(posts) && w in Vocabulary(posts)
    ensures (c, w) in Likelihoods(posts)
    ensures PostsWithLabelAndWord(posts, c, w) > 0 ==>
      && Likelihoods(posts)[(c, w)] == Fraction(PostsWithLabelAndWord(posts, c, w), PostsWithLabel(posts, c))
      && InUnitInterval(Likelihoods(posts)[(c, w)])
    ensures PostsWithLabelAndWord(posts, c, w) == 0 ==>
      Likelihoods(posts)[(c, w)] == Fraction(WordCounts(posts)[w], |posts|)
  {
    PairCountsArePostCounts(posts, c, w);
    LabelCountsArePostCounts(posts, c);
  }

  /** With single-word labels neither branch yields a zero quotient: no entry is the logarithm of 0. */
  lemma LikelihoodNeverZero(posts: seq<Post>, c: string, w: string)
    requires TokenLabels(posts)
    requires c in LabelList(posts) && w in Vocabulary(posts)
    ensures (c, w) in Likelihoods(posts)
    ensures InUnitInterval(Likelihoods(posts)[(c, w)])
    ensures PostsWithLabelAndWord(posts, c, w) == 0 ==>
      Likelihoods(posts)[(c, w)] == Fraction(PostsWithWord(posts, w), |posts|)
  {
    LikelihoodChoice(posts, c, w);
    WordCountsArePostCounts(posts, w);
  }
}
