/**
 * A Python `dict` from `str` to `str`: its pairs in insertion order, with
 * distinct keys. Assigning to a present key changes its value in place and
 * keeps its position; a new key goes at the end.
 */
module Dicts {
  import opened Wrappers

  type Dict = seq<(string, string)>

  function Keys(d: Dict): (ks: seq<string>)
    ensures |ks| == |d| && forall i :: 0 <= i < |d| ==> ks[i] == d[i].0
  {
    if d == [] then [] else [d[0].0] + Keys(d[1..])
  }

  predicate KeysDistinct(d: Dict) {
    forall i, j :: 0 <= i < j < |d| ==> d[i].0 != d[j].0
  }

  /** `d.get(k)` */
  function Get(d: Dict, k: string): (r: Option<string>)
    ensures r.Some? <==> k in Keys(d)
    ensures r.Some? ==> (k, r.value) in d
  {
    if d == [] then None
    else if d[0].0 == k then Some(d[0].1)
    else Get(d[1..], k)
  }

  /** `d[k] = v` */
  function Put(d: Dict, k: string, v: string): (r: Dict)
    ensures |r| == if k in Keys(d) then |d| else |d| + 1
    ensures (k, v) in r
  {
    if d == [] then [(k, v)]
    else if d[0].0 == k then [(k, v)] + d[1..]
    else [d[0]] + Put(d[1..], k, v)
  }

  /** An existing key keeps its position and a new one is appended. */
  lemma {:induction false} PutKeys(d: Dict, k: string, v: string)
    ensures Keys(Put(d, k, v)) == if k in Keys(d) then Keys(d) else Keys(d) + [k]
  {
    if d != [] && d[0].0 != k {
      PutKeys(d[1..], k, v);
    }
  }

  /** Keys stay distinct. */
  lemma PutDistinct(d: Dict, k: string, v: string)
    requires KeysDistinct(d)
    ensures KeysDistinct(Put(d, k, v))
  {
    PutKeys(d, k, v);
    var p := Put(d, k, v);
    var ks, kd := Keys(p), Keys(d);
    forall i, j | 0 <= i < j < |p|
      ensures p[i].0 != p[j].0
    {
      assert p[i].0 == ks[i] && p[j].0 == ks[j];
      if j < |d| {
        assert ks[i] == kd[i] == d[i].0;
        assert ks[j] == kd[j] == d[j].0;
      } else {
        assert ks == kd + [k] && ks[j] == k;
        assert ks[i] == kd[i] && kd[i] in kd;
      }
    }
  }

  /** After `d[k] = v`, `k` maps to `v` and every other key keeps its value. */
  lemma {:induction false} PutGet(d: Dict, k: string, v: string, k': string)
    ensures Get(Put(d, k, v), k') == if k' == k then Some(v) else Get(d, k')
  {
    if d != [] && d[0].0 != k {
      PutGet(d[1..], k, v, k');
    }
  }

  /** Every pair after `d[k] = v` is `(k, v)` or was already there. */
  lemma {:induction false} PutPairs(d: Dict, k: string, v: string, p: (string, string))
    requires p in Put(d, k, v)
    ensures p == (k, v) || p in d
  {
    if d != [] && d[0].0 != k && p != d[0] {
      PutPairs(d[1..], k, v, p);
    }
  }

  /** The distinct elements of `xs`, each where it first occurs. */
  function FirstOccurrences(xs: seq<string>): (r: seq<string>)
    ensures forall x :: x in r <==> x in xs
    ensures forall i, j :: 0 <= i < j < |r| ==> r[i] != r[j]
  {
    if xs == [] then []
    else
      var d := FirstOccurrences(xs[..|xs| - 1]);
      var x := xs[|xs| - 1];
      assert xs == xs[..|xs| - 1] + [x];
      if x in d then d else d + [x]
  }

  /** `FirstOccurrences` keeps the order of first occurrence: an element
      occurs in `xs` before the first occurrence of any element after it. */
  lemma {:induction false} FirstOccurrencesOrder(xs: seq<string>, i: nat, j: nat)
    requires i < j < |FirstOccurrences(xs)|
    ensures exists a :: 0 <= a < |xs| && xs[a] == FirstOccurrences(xs)[i] && FirstOccurrences(xs)[j] !in xs[..a + 1]
  {
    var init, x := xs[..|xs| - 1], xs[|xs| - 1];
    var d := FirstOccurrences(init);
    assert xs == init + [x];
    if x in d {
      FirstOccurrencesOrder(init, i, j);
      var a :| 0 <= a < |init| && init[a] == d[i] && d[j] !in init[..a + 1];
      assert xs[..a + 1] == init[..a + 1];
    } else if j < |d| {
      FirstOccurrencesOrder(init, i, j);
      var a :| 0 <= a < |init| && init[a] == d[i] && d[j] !in init[..a + 1];
      assert xs[..a + 1] == init[..a + 1];
    } else {
      assert d[i] in init;
      var a :| 0 <= a < |init| && init[a] == d[i];
      assert x !in init;
      assert xs[..a + 1] == init[..a + 1];
    }
  }

  /** With distinct keys, `d[k]` is the value paired with `k`. */
  lemma {:induction false} GetDistinct(d: Dict, k: string, v: string)
    requires KeysDistinct(d) && (k, v) in d
    ensures Get(d, k) == Some(v)
  {
    if d[0] != (k, v) {
      assert (k, v) in d[1..];
      GetDistinct(d[1..], k, v);
    }
  }
}
