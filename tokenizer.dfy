/**
 * Whitespace tokenisation as performed by `istringstream >> string` in the
 * classic "C" locale: leading whitespace is skipped, then a maximal run of
 * non-whitespace characters is read as one word.
 */
module Tokenizer {

  /** The characters `isspace` accepts in the "C" locale: space, \t, \n, \v, \f and \r. */
  predicate IsSpace(c: char) {
    c == ' ' || c == '\t' || c == '\n' || c == '\r' || c as int == 0x0B || c as int == 0x0C
  }

  /** A word as the stream extraction produces it: non-empty, without whitespace. */
  predicate IsToken(w: string) {
    |w| > 0 && forall i :: 0 <= i < |w| ==> !IsSpace(w[i])
  }

  /** Length of the leading run of non-whitespace characters of `s`. */
  function RunLength(s: string): (k: nat)
    ensures k <= |s|
    ensures forall i :: 0 <= i < k ==> !IsSpace(s[i])
    ensures k == |s| || IsSpace(s[k])
  {
    if s == [] || IsSpace(s[0]) then 0 else 1 + RunLength(s[1..])
  }

  /** The three properties of RunLength determine it. */
  lemma RunLengthUnique(s: string, k: nat)
    requires k <= |s|
    requires forall i :: 0 <= i < k ==> !IsSpace(s[i])
    requires k == |s| || IsSpace(s[k])
    ensures RunLength(s) == k
  {
  }

  /** The words read from `s`, in order, with repetitions. */
  function Tokens(s: string): (ts: seq<string>)
    ensures forall i :: 0 <= i < |ts| ==> IsToken(ts[i])
    decreases |s|
  {
    if s == [] then []
    else if IsSpace(s[0]) then Tokens(s[1..])
    else
      var k := RunLength(s);
      [s[..k]] + Tokens(s[k..])
  }

  /** Whitespace in front of the rest of the input yields no word. */
  lemma TokensAfterSpace(s: string, i: nat)
    requires i < |s| && IsSpace(s[i])
    ensures Tokens(s[i..]) == Tokens(s[i + 1..])
  {
    assert s[i..][1..] == s[i + 1..];
  }

  /** A maximal run of non-whitespace starting at `i` is the next word, and reading resumes after it. */
  lemma TokensAtWord(s: string, i: nat, j: nat)
    requires i < j <= |s|
    requires forall k :: i <= k < j ==> !IsSpace(s[k])
    requires j == |s| || IsSpace(s[j])
    ensures Tokens(s[i..]) == [s[i..j]] + Tokens(s[j..])
  {
    RunLengthUnique(s[i..], j - i);
    assert s[i..][..j - i] == s[i..j];
    assert s[i..][j - i..] == s[j..];
  }

  /** The set of distinct words of `s`: what `Classifier::unique_words` returns. */
  function WordSet(s: string): set<string> {
    set t | t in Tokens(s)
  }

  /** `s[i..j]` is a maximal run of non-whitespace characters of `s`. */
  ghost predicate MaximalRun(s: string, i: int, j: int) {
    && 0 <= i < j <= |s|
    && (i == 0 || IsSpace(s[i - 1]))
    && (j == |s| || IsSpace(s[j]))
    && forall k :: i <= k < j ==> !IsSpace(s[k])
  }

  /** A maximal run of a suffix `s[d..]` is one of `s` when it cannot be extended to the left. */
  lemma RunShiftUp(s: string, d: nat, i: int, j: int)
    requires d <= |s| && MaximalRun(s[d..], i, j)
    requires i > 0 || d == 0 || IsSpace(s[d - 1])
    ensures MaximalRun(s, i + d, j + d) && s[i + d..j + d] == s[d..][i..j]
  {
    assert forall k :: i <= k < j ==> s[d..][k] == s[k + d];
  }

  /** A maximal run of `s` starting at or after `d` is one of the suffix `s[d..]`. */
  lemma RunShiftDown(s: string, d: nat, i: int, j: int)
    requires MaximalRun(s, i, j) && d <= i
    ensures MaximalRun(s[d..], i - d, j - d) && s[d..][i - d..j - d] == s[i..j]
  {
    assert forall k :: i - d <= k < j - d ==> s[d..][k] == s[k + d];
  }

  /** Every word of `s` is a maximal non-whitespace run of `s`. */
  lemma {:induction false} TokenIsMaximalRun(s: string, w: string)
    requires w in Tokens(s)
    ensures exists i, j :: MaximalRun(s, i, j) && s[i..j] == w
    decreases |s|
  {
    if IsSpace(s[0]) {
      TokenIsMaximalRun(s[1..], w);
      var i, j :| MaximalRun(s[1..], i, j) && s[1..][i..j] == w;
      RunShiftUp(s, 1, i, j);
    } else {
      var k := RunLength(s);
      assert Tokens(s) == [s[..k]] + Tokens(s[k..]);
      if w == s[..k] {
        assert MaximalRun(s, 0, k) && s[0..k] == w;
      } else {
        assert w in Tokens(s[k..]);
        TokenIsMaximalRun(s[k..], w);
        var i, j :| MaximalRun(s[k..], i, j) && s[k..][i..j] == w;
        assert i > 0 by {
          if i == 0 { assert IsSpace(s[k]); }
        }
        RunShiftUp(s, k, i, j);
      }
    }
  }

  /** A maximal run starting inside another maximal run is that run. */
  lemma MaximalRunsOverlap(s: string, i: int, j: int, i2: int, j2: int)
    requires MaximalRun(s, i, j) && MaximalRun(s, i2, j2) && i <= i2 < j
    ensures i == i2 && j == j2
  {
  }

  /** Every maximal non-whitespace run of `s` is a word of `s`. */
  lemma {:induction false} MaximalRunIsToken(s: string, i: int, j: int)
    requires MaximalRun(s, i, j)
    ensures s[i..j] in Tokens(s)
    decreases |s|
  {
    if IsSpace(s[0]) {
      RunShiftDown(s, 1, i, j);
      MaximalRunIsToken(s[1..], i - 1, j - 1);
    } else {
      var k := RunLength(s);
      assert Tokens(s) == [s[..k]] + Tokens(s[k..]);
      if i < k {
        assert MaximalRun(s, 0, k);
        MaximalRunsOverlap(s, 0, k, i, j);
      } else {
        RunShiftDown(s, k, i, j);
        MaximalRunIsToken(s[k..], i - k, j - k);
      }
    }
  }

  /** `w` is a word of `s` exactly when it is one of the maximal non-whitespace runs of `s`. */
  lemma WordSetIsMaximalRuns(s: string, w: string)
    ensures w in WordSet(s) <==> exists i, j :: MaximalRun(s, i, j) && s[i..j] == w
  {
    if w in WordSet(s) {
      TokenIsMaximalRun(s, w);
    }
    if exists i, j :: MaximalRun(s, i, j) && s[i..j] == w {
      var i, j :| MaximalRun(s, i, j) && s[i..j] == w;
      MaximalRunIsToken(s, i, j);
    }
  }

  /** A string has no words exactly when it is empty or all whitespace. */
  lemma {:induction false} NoTokensIffBlank(s: string)
    ensures Tokens(s) == [] <==> forall i :: 0 <= i < |s| ==> IsSpace(s[i])
    decreases |s|
  {
    if s != [] && IsSpace(s[0]) {
      NoTokensIffBlank(s[1..]);
      if Tokens(s) == [] {
        forall i | 0 <= i < |s| ensures IsSpace(s[i]) {
          if i > 0 { assert s[i] == s[1..][i - 1]; }
        }
      }
    }
  }

  /** A whitespace character separates the words of what comes before it from those after it. */
  lemma {:induction false} TokensSplit(a: string, c: char, b: string)
    requires IsSpace(c)
    ensures Tokens(a + [c] + b) == Tokens(a) + Tokens(b)
    decreases |a|
  {
    var s := a + [c] + b;
    if a == [] {
      assert s[1..] == b;
    } else if IsSpace(a[0]) {
      assert s[1..] == a[1..] + [c] + b;
      TokensSplit(a[1..], c, b);
    } else {
      var k := RunLength(a);
      RunLengthUnique(s, k);
      assert s[..k] == a[..k];
      assert s[k..] == a[k..] + [c] + b;
      TokensSplit(a[k..], c, b);
    }
  }

  /** A single word reads back as itself. */
  lemma TokensOfToken(w: string)
    requires IsToken(w)
    ensures Tokens(w) == [w]
  {
    RunLengthUnique(w, |w|);
    assert w[..|w|] == w;
    assert w[|w|..] == [];
  }

  /** The word set of a single word is that word alone. */
  lemma WordSetOfToken(w: string)
    requires IsToken(w)
    ensures WordSet(w) == {w}
  {
    TokensOfToken(w);
  }
}
