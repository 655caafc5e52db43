/**
 * Picking the "latest" file: the routers sort candidates by a key with
 * `reverse=True` and take element 0. Python's sort is stable, so that element
 * is the first, in listing order, of those with the greatest key. The
 * first-hit search of a `for` loop that returns early lives here too.
 */
module Selection {
  import opened Wrappers

  /** Position of the first element satisfying `p`: a `for` loop that
      returns at the first hit. */
  function FirstWhere<T>(xs: seq<T>, p: T -> bool): (r: Option<nat>)
    ensures r.Some? ==> r.value < |xs| && p(xs[r.value])
    ensures r.Some? ==> forall i :: 0 <= i < r.value ==> !p(xs[i])
    ensures r.None? ==> forall i :: 0 <= i < |xs| ==> !p(xs[i])
  {
    if xs == [] then None
    else if p(xs[0]) then Some(0)
    else match FirstWhere(xs[1..], p)
      case None => None
      case Some(i) => Some(i + 1)
  }

  /** Any position with the three properties above is the one `FirstWhere`
      finds. */
  lemma FirstWhereUnique<T>(xs: seq<T>, p: T -> bool, r: Option<nat>)
    requires r.Some? ==> r.value < |xs| && p(xs[r.value])
    requires r.Some? ==> forall i :: 0 <= i < r.value ==> !p(xs[i])
    requires r.None? ==> forall i :: 0 <= i < |xs| ==> !p(xs[i])
    ensures r == FirstWhere(xs, p)
  {
  }

  /** A ranking key, compared lexicographically as Python compares tuples. */
  datatype Score = Score(major: int, minor: int)

  predicate Below(a: Score, b: Score) {
    a.major < b.major || (a.major == b.major && a.minor < b.minor)
  }

  /** Position of the first greatest score. */
  function FirstMax(scores: seq<Score>): (k: nat)
    requires |scores| > 0
    ensures k < |scores|
    ensures forall j :: 0 <= j < |scores| ==> !Below(scores[k], scores[j])
    ensures forall j :: 0 <= j < k ==> Below(scores[j], scores[k])
  {
    if |scores| == 1 then 0
    else
      var b := FirstMax(scores[..|scores| - 1]);
      if Below(scores[b], scores[|scores| - 1]) then |scores| - 1 else b
  }
}
