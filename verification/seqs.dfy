/** Order-preserving sequence filtering and first-match search: the model of
    JavaScript's `Array.prototype.filter` and `Array.prototype.find`. */
module Seqs {
  import opened Wrappers

  /** Every position of `idx`, one up. */
  function Shift(idx: seq<nat>): (r: seq<nat>)
    ensures |r| == |idx| && forall i :: 0 <= i < |idx| ==> r[i] == idx[i] + 1
  {
    seq(|idx|, i requires 0 <= i < |idx| => idx[i] + 1)
  }

  /** The positions of the elements of `s` that satisfy `keep`, in
      increasing order (`KeptAreKept`, `KeptIncreasing` and `KeptComplete` state what they
      are). */
  function Kept<T>(s: seq<T>, keep: T -> bool): (idx: seq<nat>)
    ensures |idx| <= |s|
    ensures forall i :: 0 <= i < |idx| ==> idx[i] < |s|
    decreases |s|
  {
    if s == [] then []
    else (if keep(s[0]) then [0] else []) + Shift(Kept(s[1..], keep))
  }

  /** Every position `Kept` lists holds a kept element. */
  lemma {:induction false} KeptAreKept<T>(s: seq<T>, keep: T -> bool)
    ensures forall i :: 0 <= i < |Kept(s, keep)| ==> keep(s[Kept(s, keep)[i]])
    decreases |s|
  {
    if s != [] {
      var t := s[1..];
      var rest := Kept(t, keep);
      KeptAreKept(t, keep);
      var idx := Kept(s, keep);
      var h: seq<nat> := if keep(s[0]) then [0] else [];
      assert idx == h + Shift(rest);
      forall i | 0 <= i < |idx|
        ensures keep(s[idx[i]])
      {
        if i >= |h| {
          assert idx[i] == rest[i - |h|] + 1;
          assert t[rest[i - |h|]] == s[idx[i]];
        }
      }
    }
  }

  /** `Kept` lists its positions in strictly increasing order, so none
      twice. */
  lemma {:induction false} KeptIncreasing<T>(s: seq<T>, keep: T -> bool)
    ensures forall i, j :: 0 <= i < j < |Kept(s, keep)| ==> Kept(s, keep)[i] < Kept(s, keep)[j]
    decreases |s|
  {
    if s != [] {
      var rest := Kept(s[1..], keep);
      KeptIncreasing(s[1..], keep);
      var idx := Kept(s, keep);
      var h: seq<nat> := if keep(s[0]) then [0] else [];
      assert idx == h + Shift(rest);
      forall i, j | 0 <= i < j < |idx|
        ensures idx[i] < idx[j]
      {
        assert idx[j] == rest[j - |h|] + 1;
        if i >= |h| {
          assert idx[i] == rest[i - |h|] + 1;
        }
      }
    }
  }

  /** Every position of a kept element is listed by `Kept`. */
  lemma {:induction false} KeptComplete<T>(s: seq<T>, keep: T -> bool)
    ensures forall k :: 0 <= k < |s| && keep(s[k]) ==> k in Kept(s, keep)
    decreases |s|
  {
    if s != [] {
      var t := s[1..];
      var rest := Kept(t, keep);
      KeptComplete(t, keep);
      var idx := Kept(s, keep);
      var h: seq<nat> := if keep(s[0]) then [0] else [];
      assert idx == h + Shift(rest);
      forall k | 0 <= k < |s| && keep(s[k])
        ensures k in idx
      {
        if k == 0 {
          assert idx[0] == 0;
        } else {
          assert t[k - 1] == s[k];
          var j :| 0 <= j < |rest| && rest[j] == k - 1;
          assert idx[|h| + j] == k;
        }
      }
    }
  }

  /** `r` is `s` read at the positions `idx`, one element per position. */
  predicate Picks<T(==)>(r: seq<T>, s: seq<T>, idx: seq<nat>) {
    |r| == |idx| && forall i :: 0 <= i < |idx| ==> idx[i] < |s| && r[i] == s[idx[i]]
  }

  /** The elements of `s` that satisfy `keep`, in their original order: the
      `i`-th result is the element at the `i`-th kept position, so the
      result neither reorders nor drops nor repeats anything. */
  function Filter<T(==)>(s: seq<T>, keep: T -> bool): (r: seq<T>)
    ensures Picks(r, s, Kept(s, keep)) && |r| <= |s|
    ensures forall i :: 0 <= i < |r| ==> r[i] in s && keep(r[i])
    ensures forall i :: 0 <= i < |s| && keep(s[i]) ==> s[i] in r
    decreases |s|
  {
    if s == [] then []
    else if keep(s[0]) then [s[0]] + Filter(s[1..], keep)
    else Filter(s[1..], keep)
  }

  /** Filtering distributes over concatenation: the kept elements of `a` all
      come before the kept elements of `b`, which is what "order-preserving"
      means. */
  lemma {:induction false} FilterConcat<T>(a: seq<T>, b: seq<T>, keep: T -> bool)
    ensures Filter(a + b, keep) == Filter(a, keep) + Filter(b, keep)
    decreases |a|
  {
    if a == [] {
      assert a + b == b;
    } else {
      assert (a + b)[1..] == a[1..] + b;
      FilterConcat(a[1..], b, keep);
    }
  }

  /** When every element is kept, filtering is the identity. */
  lemma {:induction false} FilterKeepsAll<T>(s: seq<T>, keep: T -> bool)
    requires forall i :: 0 <= i < |s| ==> keep(s[i])
    ensures Filter(s, keep) == s
    decreases |s|
  {
    if s != [] {
      FilterKeepsAll(s[1..], keep);
      assert [s[0]] + s[1..] == s;
    }
  }

  /** Two tests that agree on every element of `s` filter it identically. */
  lemma {:induction false} FilterAgreeing<T>(s: seq<T>, k1: T -> bool, k2: T -> bool)
    requires forall i :: 0 <= i < |s| ==> k1(s[i]) == k2(s[i])
    ensures Filter(s, k1) == Filter(s, k2)
    decreases |s|
  {
    if s != [] {
      FilterAgreeing(s[1..], k1, k2);
    }
  }

  /** No two elements of `s` share a key. */
  predicate UniqueKeys<T, K(==)>(s: seq<T>, key: T -> K) {
    forall i, j :: 0 <= i < j < |s| ==> key(s[i]) != key(s[j])
  }

  /** Filtering keeps the elements in their relative order: it is a
      subsequence, so elements with pairwise different keys stay so. */
  lemma FilterUniqueKeys<T, K>(s: seq<T>, keep: T -> bool, key: T -> K)
    requires UniqueKeys(s, key)
    ensures UniqueKeys(Filter(s, keep), key)
  {
    var r := Filter(s, keep);
    var idx := Kept(s, keep);
    KeptIncreasing(s, keep);
    forall i, j | 0 <= i < j < |r|
      ensures key(r[i]) != key(r[j])
    {
      assert r[i] == s[idx[i]] && r[j] == s[idx[j]];
    }
  }

  /** Index of the first element satisfying `p`, if any. */
  function FindIndex<T>(s: seq<T>, p: T -> bool): (r: Option<nat>)
    ensures r.Some? ==> r.value < |s| && p(s[r.value])
    ensures r.Some? ==> forall j :: 0 <= j < r.value ==> !p(s[j])
    ensures r.None? ==> forall j :: 0 <= j < |s| ==> !p(s[j])
    decreases |s|
  {
    if s == [] then None
    else if p(s[0]) then Some(0)
    else match FindIndex(s[1..], p)
      case None => None
      case Some(k) => Some(k + 1)
  }

  /** The first element satisfying `p`, if any (`Array.prototype.find`). */
  function Find<T>(s: seq<T>, p: T -> bool): (r: Option<T>)
    ensures r.None? <==> forall j :: 0 <= j < |s| ==> !p(s[j])
    ensures r.Some? ==> exists i :: 0 <= i < |s| && s[i] == r.value && p(s[i])
                                    && forall j :: 0 <= j < i ==> !p(s[j])
  {
    match FindIndex(s, p)
    case None => None
    case Some(i) => Some(s[i])
  }
}
