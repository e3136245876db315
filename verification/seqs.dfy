/** Generic sequence helpers: order-preserving filtering and de-duplication. */
module Seqs {

  /** No element occurs twice. */
  ghost predicate NoDup<T>(s: seq<T>) {
    forall i, j :: 0 <= i < j < |s| ==> s[i] != s[j]
  }

  /** Index of the first occurrence of `x` in `s`. */
  function FirstIndex<T(==)>(s: seq<T>, x: T): (i: nat)
    requires x in s
    ensures i < |s| && s[i] == x
    ensures forall j :: 0 <= j < i ==> s[j] != x
  {
    if s[0] == x then 0 else 1 + FirstIndex(s[1..], x)
  }

  /** The indices of the elements of `s` satisfying `p`, in increasing order. */
  function Passing<T>(s: seq<T>, p: T -> bool): (ps: seq<nat>)
    ensures forall i :: i in ps <==> 0 <= i < |s| && p(s[i])
    ensures forall a, b :: 0 <= a < b < |ps| ==> ps[a] < ps[b]
    ensures forall a :: 0 <= a < |ps| ==> ps[a] < |s|
    decreases |s|
  {
    if s == [] then []
    else
      var n := |s| - 1;
      assert forall i :: 0 <= i < n ==> s[..n][i] == s[i];
      var init := Passing(s[..n], p);
      if p(s[n]) then init + [n] else init
  }

  /** The elements of `s` satisfying `p`, in their original order (`Array.prototype.filter`). */
  function Filter<T(!new)>(s: seq<T>, p: T -> bool): (r: seq<T>)
    ensures |r| <= |s|
    ensures forall x :: x in r <==> x in s && p(x)
    decreases |s|
  {
    if s == [] then []
    else
      var init := Filter(s[..|s| - 1], p);
      var last := s[|s| - 1];
      assert forall x :: x in s <==> x in s[..|s| - 1] || x == last;
      if p(last) then init + [last] else init
  }

  /**
   * `Filter` keeps exactly the elements at the passing indices, in index
   * order.
   */
  lemma {:induction false} FilterOrder<T(!new)>(s: seq<T>, p: T -> bool)
    ensures |Filter(s, p)| == |Passing(s, p)|
    ensures forall k :: 0 <= k < |Filter(s, p)| ==> Filter(s, p)[k] == s[Passing(s, p)[k]]
    decreases |s|
  {
    if s != [] {
      var n := |s| - 1;
      var init := s[..n];
      FilterOrder(init, p);
      var r, ps, r0, ps0 := Filter(s, p), Passing(s, p), Filter(init, p), Passing(init, p);
      if p(s[n]) {
        assert r == r0 + [s[n]] && ps == ps0 + [n];
      } else {
        assert r == r0 && ps == ps0;
      }
      forall k | 0 <= k < |r0| ensures r[k] == s[ps[k]] {
        assert r[k] == r0[k] == init[ps0[k]] && ps[k] == ps0[k];
      }
    }
  }

  /** `Filter` keeps each passing value exactly as often as `s` holds it, and no other. */
  lemma {:induction false} FilterCount<T(!new)>(s: seq<T>, p: T -> bool)
    ensures forall x :: multiset(Filter(s, p))[x] == if p(x) then multiset(s)[x] else 0
    decreases |s|
  {
    if s != [] {
      var n := |s| - 1;
      FilterCount(s[..n], p);
      assert s == s[..n] + [s[n]];
    }
  }

  lemma {:induction false} FilterAppend<T(!new)>(s: seq<T>, t: seq<T>, p: T -> bool)
    ensures Filter(s + t, p) == Filter(s, p) + Filter(t, p)
    decreases |t|
  {
    if t == [] {
      assert s + t == s;
    } else {
      var t' := t[..|t| - 1];
      assert (s + t)[..|s + t| - 1] == s + t';
      FilterAppend(s, t', p);
    }
  }

  /** Filtering by a test every element passes changes nothing. */
  lemma {:induction false} FilterAll<T(!new)>(s: seq<T>, p: T -> bool)
    requires forall i :: 0 <= i < |s| ==> p(s[i])
    ensures Filter(s, p) == s
    decreases |s|
  {
    if s != [] {
      FilterAll(s[..|s| - 1], p);
      assert s[..|s| - 1] + [s[|s| - 1]] == s;
    }
  }

  /** Filtering by a test no element passes leaves nothing. */
  lemma {:induction false} FilterNone<T(!new)>(s: seq<T>, p: T -> bool)
    requires forall i :: 0 <= i < |s| ==> !p(s[i])
    ensures Filter(s, p) == []
    decreases |s|
  {
    if s != [] {
      FilterNone(s[..|s| - 1], p);
    }
  }

  /** The first element passing the test heads the filtered list. */
  lemma {:induction false} FilterFirst<T(!new)>(s: seq<T>, p: T -> bool, i: nat)
    requires i < |s| && p(s[i]) && forall j :: 0 <= j < i ==> !p(s[j])
    ensures Filter(s, p) != [] && Filter(s, p)[0] == s[i]
    decreases |s|
  {
    var n := |s| - 1;
    if i == n {
      FilterNone(s[..n], p);
    } else {
      FilterFirst(s[..n], p, i);
    }
  }

  /**
   * `[...new Set(s)]`: every element of `s` once, in the order of its first
   * occurrence.
   */
  function Distinct<T(==,!new)>(s: seq<T>): (r: seq<T>)
    ensures NoDup(r)
    ensures forall x :: x in r <==> x in s
    ensures |r| <= |s|
    ensures forall i, j :: 0 <= i < j < |r| ==> FirstIndex(s, r[i]) < FirstIndex(s, r[j])
    decreases |s|
  {
    if s == [] then []
    else
      var init := s[..|s| - 1];
      var d := Distinct(init);
      var last := s[|s| - 1];
      assert forall x :: x in s <==> x in init || x == last;
      assert forall x :: x in init ==> FirstIndex(s, x) == FirstIndex(init, x) by {
        forall x | x in init ensures FirstIndex(s, x) == FirstIndex(init, x) {
          FirstIndexPrefix(init, s, x);
        }
      }
      if last in d then d
      else
        assert last !in init;
        assert FirstIndex(s, last) == |s| - 1;
        d + [last]
  }

  lemma {:induction false} FirstIndexPrefix<T>(p: seq<T>, s: seq<T>, x: T)
    requires x in p && p <= s
    ensures FirstIndex(s, x) == FirstIndex(p, x)
    decreases |p|
  {
    if p[0] != x {
      FirstIndexPrefix(p[1..], s[1..], x);
    }
  }
}
