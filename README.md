# Naive Bayes post classifier, modelled in Dafny

This is a model of the `Classifier` class of a Naive Bayes text classifier for labelled posts (`main.cpp`). Each post is a pair of a label (`tag`) and a text (`content`).

`train` works in three steps. It walks the training posts and records:

- one label occurrence per post (`labels_set`);
- one (label, word) occurrence per post for each distinct word of the post (`label_word`).

It then derives the vocabulary and the label set by tokenising the space-joined texts and labels. Last, it fills the tables below, one `*_impl` step at a time:

- three count tables: posts per word, posts per label, and posts per (label, word);
- the log-prior and log-likelihood tables.

`prediction` scores every label as its log-prior plus one term per distinct test word. It returns the first label, in set order, that reaches the highest score. `predict` runs `prediction` on every test post and counts the correct answers.

The model has seven modules:

- `Tokenizer` (`tokenizer.dfy`): the words that `istringstream >> string` reads in the "C" locale. They are characterised both as a recursive scan and as the maximal non-whitespace runs of the input.
- `SortedStrings` (`sorted_strings.dfy`): `std::set<string>` as a strictly increasing sequence under `std::string`'s `operator<`, which is the order its iterators visit. Insertion is modelled, and a sorted sequence is unique for its elements.
- `Corpus` (`corpus.dfy`): posts, the two occurrence multisets that `train` accumulates, the joined strings, the vocabulary and label set, and the post counts that the tables are meant to hold.
- `Tables` (`tables.dfy`):
  - each table as a function of the classifier's intermediate state, as the `*_impl` steps compute it;
  - each table as a function of the training posts;
  - lemmas saying what every entry counts.
- `Decision` (`decision.dfy`): the argmax scan of `prediction`. The first maximum wins.
- `Scoring` (`scoring.dfy`): the score of a label, the predicted label, the per-post report and the correct-count tally. Includes the lemmas about out-of-vocabulary words.
- `NaiveBayes` (`classifier.dfy`): the class `Classifier`. It has the source's fields and methods; each loop is proved against the functions above.

Three modelling choices apply throughout:

- **Counts.** The source keeps counts in `double`s that only ever hold whole numbers; here they are `nat`.
- **Logarithms.** Each `log(x / y)` is stored as the quotient `Fraction(x, y)` it is taken of. Scores are `real` values computed through a caller-supplied function `ln` from quotients to reals, so no floating-point arithmetic is modelled.
- **`std::map`.** A `std::map` is a Dafny `map`. `insert` only adds a key that is absent. `operator[]` on a missing key reads the value-initialised 0: `Lookup` for the count tables, `Scoring.PriorTerm` and `Scoring.WordTerm` for `log_prior` and `log_likelihood`.

## Model

| member | source | states |
|---|---|---|
| Tokenizer.Tokens | main.cpp:104-110 | every word read from the stream is non-empty and free of whitespace |
| Tokenizer.TokenIsMaximalRun | main.cpp:104-110 | every word the stream yields is a maximal non-whitespace run of the input |
| Tokenizer.MaximalRunIsToken | main.cpp:104-110 | every maximal non-whitespace run of the input is a word the stream yields |
| Tokenizer.WordSetIsMaximalRuns | main.cpp:103-112 | `w` is in the word set of `s` iff `w` is a maximal non-whitespace run of `s` |
| Tokenizer.NoTokensIffBlank | main.cpp:108 | the stream yields no word iff the string is empty or all whitespace |
| Tokenizer.TokensSplit | main.cpp:123-124 | the words of `a + c + b` for a whitespace `c` are those of `a` followed by those of `b` |
| Tokenizer.TokensAfterSpace | main.cpp:108 | a whitespace character in front of the rest of the input yields no word |
| Tokenizer.TokensAtWord | main.cpp:108 | a maximal run starting at `i` is the next word, and reading resumes at its end |
| Tokenizer.WordSetOfToken | main.cpp:131-132 | a single word tokenises to exactly itself |
| SortedStrings.LessIrreflexive | main.cpp:105 | `operator<` on strings is irreflexive |
| SortedStrings.LessTransitive | main.cpp:105 | `operator<` on strings is transitive |
| SortedStrings.LessTotal | main.cpp:105 | any two distinct strings are ordered one way or the other |
| SortedStrings.LessAsymmetric | main.cpp:105 | `operator<` on strings is asymmetric |
| SortedStrings.Insert | main.cpp:109 | `set::insert` keeps the set sorted and adds exactly `x`; the set is unchanged when `x` is present and grows by one otherwise |
| SortedStrings.InsertAll | main.cpp:108-110 | inserting a sequence of words gives a sorted set of exactly the old elements and those words |
| SortedStrings.SortedUnique | main.cpp:105 | two sorted sequences with the same elements are equal, so a set has one iteration order |
| SortedStrings.SortedIndexOrder | main.cpp:255-259 | in a set, an earlier position means a smaller string and conversely |
| Corpus.SortedWords | main.cpp:103-112 | `unique_words(s)` is sorted and holds exactly the words of `s` |
| Corpus.SortedWordsEmptyIffBlank | main.cpp:103-112 | `unique_words(s)` is empty iff `s` is empty or all whitespace |
| Corpus.JoinedWordSet | main.cpp:123-124 | the words of the space-joined strings are the union of the words of each string |
| Corpus.AppendPost | main.cpp:118-130 | one more post appends its text and label to the joined strings, its label to the label multiset and its (label, word) pairs to the pair multiset |
| Corpus.AccumulateParts | main.cpp:118-130 | the four values the post loop builds are the joined texts, the joined labels and the two occurrence multisets of all posts |
| Corpus.VocabularyIsPostWords | main.cpp:123-131 | `unique_word` holds exactly the words occurring in some training post |
| Corpus.LabelListIsPostLabels | main.cpp:124-132 | with single-word labels, `unique_label` holds exactly the labels of the training posts |
| Corpus.PostPairsMember | main.cpp:126-129 | a post contributes `(c, w)` iff `c` is its label and `w` is one of its words |
| Corpus.OccurrencesCountPosts | main.cpp:126-129 | the occurrences of `(c, w)` in `label_word` are the number of posts labelled `c` that contain `w` |
| Corpus.LabelOccurrencesCountPosts | main.cpp:125 | the occurrences of `c` in `labels_set` are the number of posts labelled `c` |
| Corpus.PairCountBoundedByLabelCount | main.cpp:125-129 | posts labelled `c` containing `w` are at most the posts labelled `c` |
| Corpus.WordCountBounds | main.cpp:144-154 | the posts containing `w` number at most all posts, and at least one iff some post contains `w` |
| Tables.LabelledInSplit | main.cpp:157-162 | adding a new label to a group adds that label's post count |
| Tables.WordLabelledInSplit | main.cpp:148-151 | adding a new label to a group adds that label's count of posts containing `w` |
| Tables.LabelledInAll | main.cpp:157-162 | when every post's label is in the group, the group counts all posts, and all posts containing `w` |
| Tables.LabelSumCountsPosts | main.cpp:157-162 | the label-count table summed over a set of seen labels is the number of posts with those labels |
| Tables.ColumnSumCountsPosts | main.cpp:146-151 | summing `label_word` counts over a set of labels counts the posts with one of those labels containing `w` |
| Tables.PairColumnSumIsColumnSum | main.cpp:173-182 | summing the pair-count table over labels gives the same total as summing `label_word` directly |
| Tables.EmptyTrainingBuildsNothing | main.cpp:131-139 | with no training posts the label set and vocabulary are empty, and so is every table |
| Tables.LabelCountsArePostCounts | main.cpp:157-162 | `num_posts_label` has an entry exactly for each label of the label set, equal to the number of posts with that label |
| Tables.LabelCountsTotal | main.cpp:157-162 | with single-word labels, the label counts sum to `num_post` |
| Tables.WordCountIsPairColumn | main.cpp:144-182 | `num_posts_word[w]` is the sum over labels of `num_posts_label_word[(c, w)]` |
| Tables.WordCountsArePostCounts | main.cpp:144-154 | with single-word labels, `num_posts_word[w]` is the number of posts containing `w`, between 1 and `num_post` |
| Tables.PairCountsArePostCounts | main.cpp:173-182 | `num_posts_label_word` has an entry exactly for each pair in label set × vocabulary, equal to the posts with both (0 when they never co-occur) and at most the posts with the label |
| Tables.PriorFraction | main.cpp:164-169 | the prior of a label is (posts with it) / `num_post`, in (0, 1] with single-word labels |
| Tables.PostsWithLabelPositive | main.cpp:164-169 | a label carried by some post has a positive post count |
| Tables.PostsWithLabelBounded | main.cpp:164-169 | a label's post count is at most the number of posts |
| Tables.LikelihoodChoice | main.cpp:184-198 | a co-occurring pair gets count / posts-with-label, which lies in (0, 1]; any other pair gets posts-with-word / `num_post` |
| Tables.LikelihoodNeverZero | main.cpp:184-198 | with single-word labels every likelihood quotient is in (0, 1], so no branch takes the log of 0 |
| Decision.FirstMaxIndex | main.cpp:252-261 | the scan returns an index whose score is at least every score and strictly above every earlier score |
| Decision.FirstMaxUnique | main.cpp:252-261 | those two properties determine the index the scan returns |
| Decision.FirstMaxShift | main.cpp:242-261 | adding the same amount to every score leaves the winner unchanged |
| Scoring.Scores | main.cpp:240-251 | one score per label, in label order, each the score of that label |
| Scoring.PredictedIsFirstMax | main.cpp:252-261 | the predicted label is in the label set, its score is at least every label's score, and every label ordered before it scores strictly less |
| Scoring.Reports | main.cpp:224-232 | `predict` reports exactly one result per test post, the `i`-th being the report for the `i`-th post |
| Scoring.CorrectCount | main.cpp:223-234 | the correct tally is between 0 and the number of test posts |
| Scoring.InVocabularyMembers | main.cpp:242-248 | the in-vocabulary filter keeps exactly the test words in `unique_word`, and it and the unseen-word count add up to the test size |
| Scoring.NoneInVocabulary | main.cpp:243 | a test with no vocabulary word filters to nothing |
| Scoring.ScoreAppend | main.cpp:242-249 | scoring one more word adds that word's term |
| Scoring.OovTermsAreUniform | main.cpp:242-248 | a label's score is its score on the in-vocabulary words plus `log(1 / num_post)` once per unseen word |
| Scoring.OovNeverDecides | main.cpp:242-261 | dropping the unseen words never changes the predicted label |
| Scoring.UnseenWordsFollowPriors | main.cpp:240-261 | a post made only of unseen words is classified as if it had no words (priors alone) |
| NaiveBayes.Classifier.constructor | main.cpp:95-99 | stores the training data, sets `num_post` to its size, and starts with empty strings, sets, multisets and tables |
| NaiveBayes.Classifier.ReadWord | main.cpp:108 | one extraction succeeds iff words remain; it returns the next word and the position after it |
| NaiveBayes.Classifier.SkipSpace | main.cpp:108 | skipping leading whitespace stops at the end or at a non-space and loses no word |
| NaiveBayes.Classifier.ReadRun | main.cpp:108 | reading a run from a non-space position returns the next word and the position after it |
| NaiveBayes.Classifier.UniqueWords | main.cpp:103-112 | `unique_words(str)` is the sorted set of exactly the words of `str` |
| NaiveBayes.Classifier.Train | main.cpp:114-140 | after `train` on a fresh object, every field is the corresponding function of the training posts |
| NaiveBayes.Classifier.TrainedTables | main.cpp:135-139 | after `train`, the five tables are those of the training posts |
| NaiveBayes.Classifier.AccumulatePosts | main.cpp:118-130 | the post loop leaves the joined texts, the joined labels, `labels_set` and `label_word` of all posts |
| NaiveBayes.Classifier.AddPost | main.cpp:123-129 | one iteration appends the text and label, adds one label occurrence and the post's (label, word) pairs |
| NaiveBayes.Classifier.AddPostPairs | main.cpp:127-129 | the inner loop adds exactly one `(label, w)` per distinct word `w` of the post |
| NaiveBayes.Classifier.AddPair | main.cpp:127-128 | each next distinct word adds one new pair |
| NaiveBayes.Classifier.DeriveSets | main.cpp:131-133 | `unique_word` and `unique_label` are the word sets of the joined texts and labels, and `word_size` is the vocabulary size |
| NaiveBayes.Classifier.FillTables | main.cpp:135-139 | the five `*_impl` calls fill the five tables from the state they read |
| NaiveBayes.Classifier.FillLabelTables | main.cpp:135-137 | fills `num_posts_word`, `num_posts_label` and `log_prior` |
| NaiveBayes.Classifier.FillPairTables | main.cpp:138-139 | fills `num_posts_label_word` and `log_likelihood` |
| NaiveBayes.Classifier.NumPostsWordImpl | main.cpp:144-154 | each vocabulary word maps to its `label_word` occurrences summed over the label set |
| NaiveBayes.Classifier.NumPostsLabelImpl | main.cpp:157-162 | each label maps to its count in `labels_set` |
| NaiveBayes.Classifier.LogPriorImpl | main.cpp:164-169 | each label maps to `num_posts_label[label] / num_post` |
| NaiveBayes.Classifier.NumPostsLabelWordImpl | main.cpp:173-182 | every pair of label set × vocabulary maps to its `label_word` count, and no other pair is present |
| NaiveBayes.Classifier.LogLikelihoodImpl | main.cpp:184-198 | each pair-table entry maps to the two-branch likelihood quotient |
| NaiveBayes.Classifier.Prediction | main.cpp:238-262 | returns the first highest-scoring label in set order and its score |
| NaiveBayes.Classifier.ScoreLabels | main.cpp:239-251 | `pred` has an entry exactly for each label, equal to its score |
| NaiveBayes.Classifier.LabelScore | main.cpp:241-249 | one label's score is its prior plus each test word's term |
| NaiveBayes.Classifier.Predict | main.cpp:221-236 | reports each test post's prediction from its distinct words; `correct` is the number right, at most the test size |
| NaiveBayes.Classifier.PredictPost | main.cpp:225-226 | one test post is tokenised and then classified by `prediction` |
| NaiveBayes.Classifier.TrainedTermsPresent | main.cpp:241-247 | after training, every label has a prior and every (label, vocabulary word) pair a likelihood |
| NaiveBayes.Classifier.TrainedTermsFinite | main.cpp:166-194 | after training with single-word labels, every logarithm `prediction` reads is of a quotient in (0, 1] |
| NaiveBayes.Classifier.GetNumPost | main.cpp:264-266 | returns the number of training posts |
| NaiveBayes.Classifier.GetWordSize | main.cpp:268-270 | after training, returns the number of distinct words in the training posts |

## Left out

- Command-line handling, CSV reading and `main` (main.cpp:272-339) are not part of this model. `csvstream.h` is not part of this model either; the training and test posts are parameters.
- The `debug` flag, the debug trace in `train`, `print_log_prior`, `print_log_likelihood` and all console output of `predict` are left out. They write to `cout` and do not affect any table.
- `log` and `double` arithmetic are left out: tables hold the quotients, and scores use a caller-supplied `ln`. Rounding, infinities and NaN (e.g. `log(0)`) are not modelled, so score ties are exact ties of `ln` sums.
- `double` counts are modelled as `nat`: the source only stores whole numbers far below 2^53 there.
- `std::string` comparison: characters are compared by their code. The source compares `char`s as `unsigned char`. The two agree for byte-valued characters.
- NaiveBayes.Classifier.Train: requires a freshly constructed object. A second `train` in the source keeps appending to `words`, `labels`, `labels_set` and `label_word`, while `map::insert` keeps the old table entries; that is not modelled.
- NaiveBayes.Classifier.Prediction: requires a non-empty label set. With no labels the source dereferences `pred.begin()` of an empty map, which is undefined behaviour.
- An empty training set is accepted. `train` then leaves every set and table empty and divides by nothing (`EmptyTrainingBuildsNothing`). The source fails later, when `prediction` dereferences the empty `pred` map (main.cpp:252); `Prediction` and `Predict` exclude that case by precondition.
- `operator[]` on `num_posts_label`, `num_posts_word`, `log_prior` and `log_likelihood` inserts a default entry for a missing key in the source. The model reads 0 without inserting: `Lookup` does so for `num_posts_label` and `num_posts_word`, and `Scoring.PriorTerm` and `Scoring.WordTerm` do so for `log_prior` and `log_likelihood`. After a successful `train` the keys read are always present (`TrainedTermsPresent`, `LabelCountsArePostCounts`, `WordCountIsPairColumn`).
- `log_likelihood_impl` iterates `num_posts_label_word` in key order; the model picks its keys in any order. The resulting map is the same for every order, since each key is inserted once.
- In `prediction`, the source iterates `pred` in key order. The model scans `unique_label` in order, which is the same order because both are sorted by `operator<` and hold the same keys.
- Single-word labels (`TokenLabels`: every label non-empty and free of whitespace) are a hypothesis of the lemmas that need them. This is not a precondition of `train`, which the model runs on any labels, as the source does. A label containing whitespace is split into several entries of `unique_label`. An empty label contributes no word at all and is missing from `unique_label`, so the label counts no longer sum to `num_post`.
