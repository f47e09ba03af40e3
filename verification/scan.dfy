/** The two scans every step of the simulator is built from: the first index
    whose element passes a test (a `for ... break` loop), and all such indices
    in ascending order (a `for` loop without `break`). */
module Scan {
  import opened Wrappers

  /** The lowest index at or after `from` whose element satisfies `p`. */
  function First<T>(s: seq<T>, p: T -> bool, from: nat): (k: Option<nat>)
    requires from <= |s|
    ensures k.Some? ==> from <= k.value < |s| && p(s[k.value])
    ensures k.Some? ==> forall j :: from <= j < k.value ==> !p(s[j])
    ensures k.None? ==> forall j :: from <= j < |s| ==> !p(s[j])
    decreases |s| - from
  {
    if from == |s| then None
    else if p(s[from]) then Some(from)
    else First(s, p, from + 1)
  }

  /** Every index at or after `from` whose element satisfies `p`, ascending. */
  function Where<T>(s: seq<T>, p: T -> bool, from: nat): (r: seq<nat>)
    requires from <= |s|
    ensures forall t :: 0 <= t < |r| ==> from <= r[t] < |s| && p(s[r[t]])
    ensures forall t, t' :: 0 <= t < t' < |r| ==> r[t] < r[t']
    ensures forall k :: from <= k < |s| && p(s[k]) ==> k in r
    decreases |s| - from
  {
    if from == |s| then []
    else if p(s[from]) then [from] + Where(s, p, from + 1)
    else Where(s, p, from + 1)
  }

  /** The first match is the head of the list of all matches. */
  lemma {:induction false} FirstIsHeadOfWhere<T>(s: seq<T>, p: T -> bool, from: nat)
    requires from <= |s|
    ensures First(s, p, from).None? <==> Where(s, p, from) == []
    ensures First(s, p, from).Some? ==> First(s, p, from).value == Where(s, p, from)[0]
    decreases |s| - from
  {
    if from < |s| && !p(s[from]) {
      FirstIsHeadOfWhere(s, p, from + 1);
    }
  }

  /** The matches at or after `from` depend only on the elements there. */
  lemma {:induction false} WhereFrame<T>(s: seq<T>, s': seq<T>, p: T -> bool, from: nat)
    requires from <= |s| == |s'|
    requires forall k :: from <= k < |s| ==> s[k] == s'[k]
    ensures Where(s, p, from) == Where(s', p, from)
    decreases |s| - from
  {
    if from < |s| {
      WhereFrame(s, s', p, from + 1);
    }
  }

  /** Overwriting the first match with an element that fails `p` drops exactly
      that match from the list. */
  lemma {:induction false} WhereAfterTakingFirst<T>(s: seq<T>, p: T -> bool, from: nat, k: nat, x: T)
    requires from <= k < |s| && p(s[k]) && !p(x)
    requires forall j :: from <= j < k ==> !p(s[j])
    ensures Where(s, p, from) == [k] + Where(s, p, k + 1)
    ensures Where(s[k := x], p, from) == Where(s, p, k + 1)
    decreases k - from
  {
    if from < k {
      WhereAfterTakingFirst(s, p, from + 1, k, x);
    } else {
      WhereFrame(s, s[k := x], p, k + 1);
    }
  }
}
