/**
 * The training corpus and what the classifier counts in it: per-post word
 * sets, the (label, word) occurrence multiset, and the numbers of posts with
 * a label, with a word, and with both.
 */
module Corpus {
  import opened Tokenizer
  import opened SortedStrings

  /** One labelled post: its label (the `tag` column of a record) and its text (the `content` column). */
  datatype Post = Post(tag: string, content: string)

  /** What `unique_words(s)` holds, in the order its iterators visit it. */
  function SortedWords(s: string): (r: seq<string>)
    ensures Sorted(r)
    ensures forall w :: w in r <==> w in WordSet(s)
  {
    InsertAll([], Tokens(s))
  }

  /** `unique_words` is empty exactly on an empty or all-whitespace string. */
  lemma SortedWordsEmptyIffBlank(s: string)
    ensures SortedWords(s) == [] <==> forall i :: 0 <= i < |s| ==> IsSpace(s[i])
  {
    NoTokensIffBlank(s);
    var ts := Tokens(s);
    if ts != [] {
      assert ts[0] in WordSet(s);
    }
  }

  function Labels(posts: seq<Post>): seq<string> {
    seq(|posts|, i requires 0 <= i < |posts| => posts[i].tag)
  }

  function Contents(posts: seq<Post>): seq<string> {
    seq(|posts|, i requires 0 <= i < |posts| => posts[i].content)
  }

  /** The string `train` builds by appending " " and then each element, starting from "". */
  function Joined(xs: seq<string>): string {
    if xs == [] then "" else Joined(xs[..|xs| - 1]) + " " + xs[|xs| - 1]
  }

  /** The words occurring in some element of `xs`. */
  function WordsOf(xs: seq<string>): set<string> {
    set i, w | 0 <= i < |xs| && w in WordSet(xs[i]) :: w
  }

  /** Tokenising the space-joined strings gives the union of their word sets. */
  lemma {:induction false} JoinedWordSet(xs: seq<string>)
    ensures WordSet(Joined(xs)) == WordsOf(xs)
  {
    if xs != [] {
      var init, last := xs[..|xs| - 1], xs[|xs| - 1];
      JoinedWordSet(init);
      assert Joined(xs) == Joined(init) + [' '] + last;
      TokensSplit(Joined(init), ' ', last);
      assert Tokens(Joined(xs)) == Tokens(Joined(init)) + Tokens(last);
      forall w ensures w in WordSet(Joined(xs)) <==> w in WordsOf(xs) {
        assert w in WordSet(Joined(xs)) <==> w in WordSet(Joined(init)) || w in WordSet(last);
        if w in WordsOf(xs) {
          var i :| 0 <= i < |xs| && w in WordSet(xs[i]);
          if i < |xs| - 1 {
            assert xs[i] == init[i];
            assert w in WordsOf(init);
          }
        }
        if w in WordsOf(init) {
          var i :| 0 <= i < |init| && w in WordSet(init[i]);
          assert xs[i] == init[i];
        }
        if w in WordSet(last) {
          assert w in WordSet(xs[|xs| - 1]);
        }
      }
    }
  }

  /** Appending one post appends its label, its text and its (label, word) pairs. */
  lemma AppendPost(posts: seq<Post>, p: Post)
    ensures Labels(posts + [p]) == Labels(posts) + [p.tag]
    ensures Contents(posts + [p]) == Contents(posts) + [p.content]
    ensures Joined(Labels(posts + [p])) == Joined(Labels(posts)) + " " + p.tag
    ensures Joined(Contents(posts + [p])) == Joined(Contents(posts)) + " " + p.content
    ensures LabelOccurrences(posts + [p]) == LabelOccurrences(posts) + multiset{p.tag}
    ensures LabelWordOccurrences(posts + [p]) == LabelWordOccurrences(posts) + multiset(PostPairs(p))
  {
    assert (posts + [p])[..|posts|] == posts;
    assert Labels(posts + [p]) == Labels(posts) + [p.tag];
    assert Contents(posts + [p]) == Contents(posts) + [p.content];
    assert (Labels(posts) + [p.tag])[..|posts|] == Labels(posts);
    assert (Contents(posts) + [p.content])[..|posts|] == Contents(posts);
  }

  /**
   * What the loop of `train` builds, all four at once: the joined texts, the
   * joined labels, the label multiset and the (label, word) multiset.
   */
  function Accumulate(posts: seq<Post>): (string, string, multiset<string>, multiset<(string, string)>) {
    if posts == [] then ("", "", multiset{}, multiset{})
    else
      var (w, l, ls, lw) := Accumulate(posts[..|posts| - 1]);
      var p := posts[|posts| - 1];
      (w + " " + p.content, l + " " + p.tag, ls + multiset{p.tag}, lw + multiset(PostPairs(p)))
  }

  /** Each of the four is the corresponding function of the posts. */
  lemma {:induction false} AccumulateParts(posts: seq<Post>)
    ensures Accumulate(posts)
         == (Joined(Contents(posts)), Joined(Labels(posts)), LabelOccurrences(posts), LabelWordOccurrences(posts))
  {
    if posts != [] {
      var init, p := posts[..|posts| - 1], posts[|posts| - 1];
      AccumulateParts(init);
      assert posts == init + [p];
      AppendPost(init, p);
    }
  }

  /** Every label is a single word: non-empty and free of whitespace. */
  ghost predicate TokenLabels(posts: seq<Post>) {
    forall i :: 0 <= i < |posts| ==> IsToken(posts[i].tag)
  }

  /** The vocabulary `train` derives: the words of the space-joined contents. */
  function Vocabulary(posts: seq<Post>): seq<string> {
    SortedWords(Joined(Contents(posts)))
  }

  /** The label set `train` derives: the words of the space-joined labels. */
  function LabelList(posts: seq<Post>): seq<string> {
    SortedWords(Joined(Labels(posts)))
  }

  /** The vocabulary is exactly the set of words occurring in some post. */
  lemma VocabularyIsPostWords(posts: seq<Post>, w: string)
    ensures w in Vocabulary(posts) <==> exists i :: 0 <= i < |posts| && w in WordSet(posts[i].content)
  {
    JoinedWordSet(Contents(posts));
    if w in WordsOf(Contents(posts)) {
      var i :| 0 <= i < |posts| && w in WordSet(Contents(posts)[i]);
    }
    if exists i :: 0 <= i < |posts| && w in WordSet(posts[i].content) {
      var i :| 0 <= i < |posts| && w in WordSet(posts[i].content);
      assert Contents(posts)[i] == posts[i].content;
    }
  }

  /** With single-word labels, the label set is exactly the set of labels of the posts. */
  lemma LabelListIsPostLabels(posts: seq<Post>, c: string)
    requires TokenLabels(posts)
    ensures c in LabelList(posts) <==> exists i :: 0 <= i < |posts| && posts[i].tag == c
  {
    JoinedWordSet(Labels(posts));
    if c in WordsOf(Labels(posts)) {
      var i :| 0 <= i < |posts| && c in WordSet(Labels(posts)[i]);
      WordSetOfToken(posts[i].tag);
    }
    if exists i :: 0 <= i < |posts| && posts[i].tag == c {
      var i :| 0 <= i < |posts| && posts[i].tag == c;
      WordSetOfToken(posts[i].tag);
      assert c in WordSet(Labels(posts)[i]);
    }
  }

  /** The number of posts labelled `c`. */
  function PostsWithLabel(posts: seq<Post>, c: string): nat {
    if posts == [] then 0
    else PostsWithLabel(posts[..|posts| - 1], c) + (if posts[|posts| - 1].tag == c then 1 else 0)
  }

  /** The number of posts containing the word `w`. */
  function PostsWithWord(posts: seq<Post>, w: string): nat {
    if posts == [] then 0
    else PostsWithWord(posts[..|posts| - 1], w) + (if w in WordSet(posts[|posts| - 1].content) then 1 else 0)
  }

  /** The number of posts labelled `c` containing the word `w`. */
  function PostsWithLabelAndWord(posts: seq<Post>, c: string, w: string): nat {
    if posts == [] then 0
    else
      var p := posts[|posts| - 1];
      PostsWithLabelAndWord(posts[..|posts| - 1], c, w) + (if p.tag == c && w in WordSet(p.content) then 1 else 0)
  }

  /** The (label, word) pairs one post contributes: one per distinct word. */
  function PostPairs(p: Post): set<(string, string)> {
    set w | w in WordSet(p.content) :: (p.tag, w)
  }

  /** The `label_word` multiset `train` accumulates. */
  function LabelWordOccurrences(posts: seq<Post>): multiset<(string, string)> {
    if posts == [] then multiset{}
    else LabelWordOccurrences(posts[..|posts| - 1]) + multiset(PostPairs(posts[|posts| - 1]))
  }

  /** The `labels_set` multiset `train` accumulates: one occurrence per post. */
  function LabelOccurrences(posts: seq<Post>): multiset<string> {
    if posts == [] then multiset{}
    else LabelOccurrences(posts[..|posts| - 1]) + multiset{posts[|posts| - 1].tag}
  }

  lemma PostPairsMember(p: Post, c: string, w: string)
    ensures (c, w) in PostPairs(p) <==> c == p.tag && w in WordSet(p.content)
  {
    if c == p.tag && w in WordSet(p.content) {
      assert (p.tag, w) in PostPairs(p);
    }
  }

  /** A (label, word) pair occurs once for every post with that label containing that word. */
  lemma {:induction false} OccurrencesCountPosts(posts: seq<Post>, c: string, w: string)
    ensures LabelWordOccurrences(posts)[(c, w)] == PostsWithLabelAndWord(posts, c, w)
  {
    if posts != [] {
      OccurrencesCountPosts(posts[..|posts| - 1], c, w);
      PostPairsMember(posts[|posts| - 1], c, w);
    }
  }

  /** A label occurs in `labels_set` once for every post with that label. */
  lemma {:induction false} LabelOccurrencesCountPosts(posts: seq<Post>, c: string)
    ensures LabelOccurrences(posts)[c] == PostsWithLabel(posts, c)
  {
    if posts != [] {
      LabelOccurrencesCountPosts(posts[..|posts| - 1], c);
    }
  }

  /** Per-post deduplication: a label never co-occurs with a word more often than it occurs. */
  lemma {:induction false} PairCountBoundedByLabelCount(posts: seq<Post>, c: string, w: string)
    ensures PostsWithLabelAndWord(posts, c, w) <= PostsWithLabel(posts, c)
  {
    if posts != [] {
      PairCountBoundedByLabelCount(posts[..|posts| - 1], c, w);
    }
  }

  /** A word's post count is positive exactly when some post contains it, and never exceeds the number of posts. */
  lemma {:induction false} WordCountBounds(posts: seq<Post>, w: string)
    ensures PostsWithWord(posts, w) <= |posts|
    ensures PostsWithWord(posts, w) > 0 <==> exists i :: 0 <= i < |posts| && w in WordSet(posts[i].content)
  {
    if posts != [] {
      var init := posts[..|posts| - 1];
      WordCountBounds(init, w);
      if exists i :: 0 <= i < |init| && w in WordSet(init[i].content) {
        var i :| 0 <= i < |init| && w in WordSet(init[i].content);
        assert posts[i] == init[i];
      }
      if exists i :: 0 <= i < |posts| && w in WordSet(posts[i].content) {
        var i :| 0 <= i < |posts| && w in WordSet(posts[i].content);
        if i < |init| {
          assert posts[i] == init[i];
        }
      }
    }
  }
}
