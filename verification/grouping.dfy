/**
 * Grouping a list of values under string keys, as the hydration's key map
 * does: `acc[key] = acc[key] || []; acc[key].push(val)`.
 */
module Grouping {
  import opened Wrappers
  import opened Seqs

  /** The indices of `keys` holding `k`, in increasing order. */
  function Positions<K(==)>(keys: seq<K>, k: K): (ps: seq<nat>)
    ensures forall i :: i in ps <==> 0 <= i < |keys| && keys[i] == k
    ensures forall a, b :: 0 <= a < b < |ps| ==> ps[a] < ps[b]
    ensures forall a :: 0 <= a < |ps| ==> ps[a] < |keys|
    ensures k !in keys ==> ps == []
    decreases |keys|
  {
    if keys == [] then []
    else
      var n := |keys| - 1;
      assert forall i :: 0 <= i < n ==> keys[..n][i] == keys[i];
      var init := Positions(keys[..n], k);
      if keys[n] == k then init + [n] else init
  }

  /** The items at the given indices, in that order. */
  function Select<T>(items: seq<T>, ps: seq<nat>): (r: seq<T>)
    requires forall a :: 0 <= a < |ps| ==> ps[a] < |items|
    ensures |r| == |ps|
    ensures forall a :: 0 <= a < |ps| ==> r[a] == items[ps[a]]
  {
    seq(|ps|, a requires 0 <= a < |ps| => items[ps[a]])
  }

  /** Each item pushed, in order, onto the bucket of its key. */
  function Group<T>(items: seq<T>, keys: seq<string>): map<string, seq<T>>
    requires |items| == |keys|
    decreases |items|
  {
    if items == [] then map[]
    else
      var n := |items| - 1;
      var g := Group(items[..n], keys[..n]);
      g[keys[n] := (if keys[n] in g then g[keys[n]] else []) + [items[n]]]
  }

  /**
   * A key has a bucket exactly when some item carries it, and its bucket
   * holds the items carrying it, in their original order.
   */
  lemma {:induction false} GroupSpec<T>(items: seq<T>, keys: seq<string>)
    requires |items| == |keys|
    ensures forall k :: k in Group(items, keys) <==> k in keys
    ensures forall k :: k in Group(items, keys) ==> Group(items, keys)[k] == Select(items, Positions(keys, k))
    decreases |items|
  {
    if items != [] {
      var n := |items| - 1;
      GroupSpec(items[..n], keys[..n]);
      GroupStep(items, keys, Group(items[..n], keys[..n]));
    }
  }

  /** One push onto the grouping of all items but the last. */
  lemma GroupStep<T>(items: seq<T>, keys: seq<string>, g: map<string, seq<T>>)
    requires |items| == |keys| > 0
    requires forall k :: k in g <==> k in keys[..|keys| - 1]
    requires forall k :: k in g ==> g[k] == Select(items[..|items| - 1], Positions(keys[..|keys| - 1], k))
    ensures var n := |items| - 1;
            var r := g[keys[n] := (if keys[n] in g then g[keys[n]] else []) + [items[n]]];
            (forall k :: k in r <==> k in keys) &&
            (forall k :: k in r ==> r[k] == Select(items, Positions(keys, k)))
  {
    var n := |items| - 1;
    var k := keys[n];
    var r := g[k := (if k in g then g[k] else []) + [items[n]]];
    assert forall k' :: k' in keys <==> k' in keys[..n] || k' == k;
    forall k' | k' in r ensures r[k'] == Select(items, Positions(keys, k')) {
      var ps := Positions(keys[..n], k');
      assert Select(items[..n], ps) == Select(items, ps);
      if k' == k {
        assert Positions(keys, k') == ps + [n];
        assert Select(items, ps + [n]) == Select(items, ps) + [items[n]];
      } else {
        assert Positions(keys, k') == ps;
      }
    }
  }

  /** Grouping one more item pushes it onto the end of its key's bucket. */
  lemma GroupSnoc<T>(items: seq<T>, keys: seq<string>, x: T, k: string)
    requires |items| == |keys|
    ensures Group(items + [x], keys + [k])
            == Group(items, keys)[k := (if k in Group(items, keys) then Group(items, keys)[k] else []) + [x]]
  {
    assert (items + [x])[..|items|] == items;
    assert (keys + [k])[..|keys|] == keys;
  }

  /** `GroupSnoc` on a prefix of a list of items. */
  lemma GroupPrefixSnoc<T>(items: seq<T>, keys: seq<string>, j: nat, k: string)
    requires j < |items| && |keys| == j
    ensures var g := Group(items[..j], keys);
            Group(items[..j + 1], keys + [k]) == g[k := (if k in g then g[k] else []) + [items[j]]]
  {
    assert items[..j + 1] == items[..j] + [items[j]];
    GroupSnoc(items[..j], keys, items[j], k);
  }

  /** The total size of the buckets of the keys in `ks`. */
  function Sizes(keys: seq<string>, ks: seq<string>): nat
    decreases |ks|
  {
    if ks == [] then 0 else Sizes(keys, ks[..|ks| - 1]) + |Positions(keys, ks[|ks| - 1])|
  }

  /** One more key adds one to the size of its own bucket only. */
  lemma {:induction false} SizesSnoc(keys: seq<string>, x: string, ks: seq<string>)
    requires NoDup(ks)
    ensures Sizes(keys + [x], ks) == Sizes(keys, ks) + (if x in ks then 1 else 0)
    decreases |ks|
  {
    if ks != [] {
      var n := |ks| - 1;
      var init := ks[..n];
      assert NoDup(init);
      SizesSnoc(keys, x, init);
      assert (keys + [x])[..|keys|] == keys;
      assert x in ks <==> x in init || x == ks[n];
      assert ks[n] !in init;
    }
  }

  /**
   * The buckets partition the items: over the distinct keys, in first-seen
   * order, the bucket sizes add up to the number of items.
   */
  lemma {:induction false} GroupSizes(keys: seq<string>)
    ensures Sizes(keys, Distinct(keys)) == |keys|
    decreases |keys|
  {
    if keys != [] {
      var n := |keys| - 1;
      var init, x := keys[..n], keys[n];
      assert keys == init + [x];
      GroupSizes(init);
      var d := Distinct(init);
      SizesSnoc(init, x, d);
      if x !in d {
        assert Distinct(keys) == d + [x];
        assert (d + [x])[..|d|] == d;
        assert x !in init;
        assert Positions(keys, x) == [n];
      } else {
        assert Distinct(keys) == d;
      }
    }
  }

  /** Every item sits in the bucket of its own key and in no other. */
  lemma GroupPartition<T>(items: seq<T>, keys: seq<string>, i: nat, k: string)
    requires |items| == |keys| && i < |items|
    ensures keys[i] in Group(items, keys)
    ensures items[i] in Group(items, keys)[keys[i]]
    ensures k != keys[i] ==> i !in Positions(keys, k)
  {
    GroupSpec(items, keys);
    var ps := Positions(keys, keys[i]);
    assert i in ps;
    var a :| 0 <= a < |ps| && ps[a] == i;
    assert Group(items, keys)[keys[i]][a] == items[i];
  }

  /**
   * Grouping items under keys computed one at a time, `acc[key] = acc[key] ||
   * []; acc[key].push(val)`; the first key that cannot be computed ends it.
   */
  method GroupBy<T, E>(items: seq<T>, key: T -> Result<string, E>) returns (r: Result<map<string, seq<T>>, E>)
    ensures MapAll(items, key).Err? ==> r == Err(MapAll(items, key).error)
    ensures MapAll(items, key).Ok? ==> r == Ok(Group(items, MapAll(items, key).value))
  {
    var g: map<string, seq<T>> := map[];
    ghost var keys: seq<string> := [];
    var j := 0;
    while j < |items|
      invariant 0 <= j <= |items| && |keys| == j
      invariant forall i :: 0 <= i < j ==> key(items[i]) == Ok(keys[i])
      invariant g == Group(items[..j], keys)
    {
      var next := key(items[j]);
      if next.Err? {
        MapAllFirstError(items, key, j);
        return Err(next.error);
      }
      g := g[next.value := (if next.value in g then g[next.value] else []) + [items[j]]];
      GroupPrefixSnoc(items, keys, j, next.value);
      keys := keys + [next.value];
      j := j + 1;
    }
    assert items[..j] == items;
    assert MapAll(items, key).Ok?;
    assert keys == MapAll(items, key).value;
    r := Ok(g);
  }
}
