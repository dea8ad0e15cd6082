/** Where one sequence occurs in another: the reference that the scanners of this project are held to. */
module Search {
  import opened Bytes

  predicate OccursAt<T(==)>(s: seq<T>, needle: seq<T>, p: int) {
    0 <= p && p + |needle| <= |s| && s[p..p + |needle|] == needle
  }

  /** The least position at or after `from` where `needle` occurs, if there is one. */
  function First<T(==)>(s: seq<T>, needle: seq<T>, from: nat): (r: Option<nat>)
    ensures r.Some? ==> from <= r.value && OccursAt(s, needle, r.value)
    ensures r.Some? ==> forall p :: from <= p < r.value ==> !OccursAt(s, needle, p)
    ensures r.None? ==> forall p :: from <= p ==> !OccursAt(s, needle, p)
    decreases |s| - from
  {
    if from + |needle| > |s| then None
    else if s[from..from + |needle|] == needle then Some(from)
    else First(s, needle, from + 1)
  }

  /** An occurrence only depends on the stretch of text it covers. */
  lemma OccursInSlice<T>(s: seq<T>, needle: seq<T>, p: nat, lo: nat, hi: nat)
    requires lo <= p && p + |needle| <= hi <= |s|
    ensures OccursAt(s, needle, p) <==> OccursAt(s[lo..hi], needle, p - lo)
  {
    var w, a := s[lo..hi], p - lo;
    var left, right := w[a..a + |needle|], s[p..p + |needle|];
    assert forall i :: 0 <= i < |needle| ==> left[i] == right[i];
    assert left == right;
  }

  lemma OccursInSuffix<T>(s: seq<T>, needle: seq<T>, p: nat, lo: nat)
    requires lo <= p && lo <= |s|
    ensures OccursAt(s, needle, p) <==> OccursAt(s[lo..], needle, p - lo)
  {
    if p + |needle| <= |s| {
      OccursInSlice(s, needle, p, lo, |s|);
      assert s[lo..] == s[lo..|s|];
    }
  }

  /** The only occurrence that can be the first one is the first one. */
  lemma FirstIs<T>(s: seq<T>, needle: seq<T>, from: nat, p: nat)
    requires from <= p && OccursAt(s, needle, p)
    requires forall i :: from <= i < p ==> !OccursAt(s, needle, i)
    ensures First(s, needle, from) == Some(p)
  {
  }

  /** With nothing in front of `cut`, the first occurrence is the first one behind it. */
  lemma FirstInSuffix<T>(s: seq<T>, needle: seq<T>, cut: nat)
    requires cut <= |s| && forall q :: 0 <= q < cut ==> !OccursAt(s, needle, q)
    ensures First(s, needle, 0)
            == match First(s[cut..], needle, 0) case Some(p) => Some(cut + p) case None => None
  {
    forall q: nat | cut <= q
      ensures OccursAt(s, needle, q) <==> OccursAt(s[cut..], needle, q - cut)
    {
      OccursInSuffix(s, needle, q, cut);
    }
    var f := First(s[cut..], needle, 0);
    hide OccursAt;
    if f.Some? {
      assert OccursAt(s, needle, cut + f.value);
      FirstIs(s, needle, 0, cut + f.value);
    }
  }
}
