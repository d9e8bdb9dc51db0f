/**
 * The decision rule of `prediction`: scan the scores in label order, keep
 * the first one and replace it only by a strictly greater one.
 */
module Decision {

  /** Index of the first maximum of `s`: what a left-to-right scan with a strict `>` keeps. */
  function FirstMaxIndex(s: seq<real>): (k: nat)
    requires |s| > 0
    ensures k < |s|
    ensures forall j :: 0 <= j < |s| ==> s[j] <= s[k]
    ensures forall j :: 0 <= j < k ==> s[j] < s[k]
  {
    if |s| == 1 then 0
    else
      var b := FirstMaxIndex(s[..|s| - 1]);
      if s[|s| - 1] > s[b] then |s| - 1 else b
  }

  /** Being a maximum that no earlier score reaches determines the index. */
  lemma FirstMaxUnique(s: seq<real>, k: nat)
    requires k < |s|
    requires forall j :: 0 <= j < |s| ==> s[j] <= s[k]
    requires forall j :: 0 <= j < k ==> s[j] < s[k]
    ensures k == FirstMaxIndex(s)
  {
    var m := FirstMaxIndex(s);
    assert s[m] <= s[k] && s[k] <= s[m];
  }

  /** Adding the same amount to every score does not change which one wins. */
  lemma FirstMaxShift(s: seq<real>, t: seq<real>, d: real)
    requires |s| == |t| > 0
    requires forall i :: 0 <= i < |s| ==> t[i] == s[i] + d
    ensures FirstMaxIndex(t) == FirstMaxIndex(s)
  {
    FirstMaxUnique(t, FirstMaxIndex(s));
  }
}
