/**
 * First maximum and first minimum of a non-empty sequence of reals, as numpy's
 * `argmax`/`argmin` and Python's `max(..., key=...)` return them: on ties the
 * lowest index wins.
 */
module Extrema {

  /** `k` is the first index holding the largest element of `s`. */
  predicate IsFirstArgMax(s: seq<real>, k: int) {
    && 0 <= k < |s|
    && (forall j :: 0 <= j < |s| ==> s[j] <= s[k])
    && (forall j :: 0 <= j < k ==> s[j] < s[k])
  }

  /** `k` is the first index holding the smallest element of `s`. */
  predicate IsFirstArgMin(s: seq<real>, k: int) {
    && 0 <= k < |s|
    && (forall j :: 0 <= j < |s| ==> s[k] <= s[j])
    && (forall j :: 0 <= j < k ==> s[k] < s[j])
  }

  function FirstArgMax(s: seq<real>): (k: nat)
    requires |s| > 0
    ensures IsFirstArgMax(s, k)
  {
    if |s| == 1 then 0
    else
      var k' := FirstArgMax(s[..|s| - 1]);
      if s[|s| - 1] > s[k'] then |s| - 1 else k'
  }

  function FirstArgMin(s: seq<real>): (k: nat)
    requires |s| > 0
    ensures IsFirstArgMin(s, k)
  {
    if |s| == 1 then 0
    else
      var k' := FirstArgMin(s[..|s| - 1]);
      if s[|s| - 1] < s[k'] then |s| - 1 else k'
  }
}
