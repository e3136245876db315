/** Failure-compatible wrappers used for the error paths of the model. */
module Wrappers {

  /** A value that may be missing. */
  datatype Option<+T> = None | Some(value: T) {
    predicate IsFailure() { None? }

    function PropagateFailure<U>(): Option<U>
      requires None?
    {
      None
    }

    function Extract(): T
      requires Some?
    {
      value
    }
  }

  /** A computation that either produced a value or failed with an error. */
  datatype Result<+T, +E> = Ok(value: T) | Err(error: E) {
    predicate IsFailure() { Err? }

    function PropagateFailure<U>(): Result<U, E>
      requires Err?
    {
      Err(error)
    }

    function Extract(): T
      requires Ok?
    {
      value
    }
  }

  /**
   * `Promise.all(xs.map(f))` with the calls run in index order: all values
   * when every call succeeded, otherwise the error of the first failure.
   */
  function MapAll<A, T, E>(xs: seq<A>, f: A -> Result<T, E>): (r: Result<seq<T>, E>)
    ensures r.Ok? <==> forall i :: 0 <= i < |xs| ==> f(xs[i]).Ok?
    ensures r.Ok? ==> |r.value| == |xs| && forall i :: 0 <= i < |xs| ==> r.value[i] == f(xs[i]).value
    ensures r.Err? ==> exists i :: 0 <= i < |xs| && f(xs[i]) == Err(r.error)
                                && forall j :: 0 <= j < i ==> f(xs[j]).Ok?
    decreases |xs|
  {
    if xs == [] then Ok([])
    else
      var head := f(xs[0]);
      if head.Err? then Err(head.error)
      else
        var rest := MapAll(xs[1..], f);
        assert forall i :: 1 <= i < |xs| ==> xs[i] == xs[1..][i - 1];
        if rest.Err? then
          assert exists i :: 1 <= i < |xs| && f(xs[i]) == Err(rest.error) && forall j :: 0 <= j < i ==> f(xs[j]).Ok? by {
            var i :| 0 <= i < |xs[1..]| && f(xs[1..][i]) == Err(rest.error) && forall j :: 0 <= j < i ==> f(xs[1..][j]).Ok?;
            assert f(xs[i + 1]) == Err(rest.error);
          }
          Err(rest.error)
        else Ok([head.value] + rest.value)
  }

  /**
   * `xs.map(f)` where a call may throw: the values of the calls in order up
   * to the first that threw, and its exception.
   */
  function MapUntilError<A, T, E>(xs: seq<A>, f: A -> Result<T, E>): (r: (seq<T>, Option<E>))
    ensures |r.0| <= |xs|
    ensures forall i :: 0 <= i < |r.0| ==> f(xs[i]) == Ok(r.0[i])
    ensures r.1.None? <==> forall i :: 0 <= i < |xs| ==> f(xs[i]).Ok?
    ensures r.1.None? ==> |r.0| == |xs|
    ensures r.1.Some? ==> |r.0| < |xs| && f(xs[|r.0|]) == Err(r.1.value)
    decreases |xs|
  {
    if xs == [] then ([], None)
    else
      var first := f(xs[0]);
      if first.Err? then ([], Some(first.error))
      else
        var rest := MapUntilError(xs[1..], f);
        assert forall i :: 1 <= i < |xs| ==> xs[i] == xs[1..][i - 1];
        ([first.value] + rest.0, rest.1)
  }

  /** The error of `MapAll` is the one of the first call that failed. */
  lemma MapAllFirstError<A, T, E>(xs: seq<A>, f: A -> Result<T, E>, j: nat)
    requires j < |xs| && f(xs[j]).Err?
    requires forall k :: 0 <= k < j ==> f(xs[k]).Ok?
    ensures MapAll(xs, f) == Err(f(xs[j]).error)
  {
    var r := MapAll(xs, f);
    var i :| 0 <= i < |xs| && f(xs[i]) == Err(r.error) && forall k :: 0 <= k < i ==> f(xs[k]).Ok?;
  }

  /** When every call succeeded, `MapAll` returns their values in order. */
  lemma MapAllOk<A, T, E>(xs: seq<A>, f: A -> Result<T, E>, values: seq<T>)
    requires |values| == |xs|
    requires forall i :: 0 <= i < |xs| ==> f(xs[i]) == Ok(values[i])
    ensures MapAll(xs, f) == Ok(values)
  {
    assert MapAll(xs, f).Ok?;
    assert MapAll(xs, f).value == values;
  }

  /** Extending a successful prefix by one more successful call. */
  lemma MapAllSnoc<A, T, E>(xs: seq<A>, f: A -> Result<T, E>, i: nat, values: seq<T>)
    requires i < |xs| && MapAll(xs[..i], f) == Ok(values) && f(xs[i]).Ok?
    ensures MapAll(xs[..i + 1], f) == Ok(values + [f(xs[i]).value])
  {
    MapAllOk(xs[..i + 1], f, values + [f(xs[i]).value]);
  }

  /** After a successful prefix, the next failing call is the error of the whole. */
  lemma MapAllPrefixErr<A, T, E>(xs: seq<A>, f: A -> Result<T, E>, i: nat, values: seq<T>)
    requires i < |xs| && MapAll(xs[..i], f) == Ok(values) && f(xs[i]).Err?
    ensures MapAll(xs, f) == Err(f(xs[i]).error)
  {
    assert forall k :: 0 <= k < i ==> xs[..i][k] == xs[k];
    MapAllFirstError(xs, f, i);
  }

  /**
   * `Promise.all(xs.map(f))` with every call made: each call's outcome, in
   * order, and the error the whole rejects with (the first failure by index).
   */
  method AllOutcomes<A, T, E>(xs: seq<A>, f: A -> Result<T, E>) returns (outs: seq<Result<T, E>>, first: Option<E>)
    ensures |outs| == |xs| && forall k :: 0 <= k < |xs| ==> outs[k] == f(xs[k])
    ensures MapAll(xs, f).Err? ==> first == Some(MapAll(xs, f).error)
    ensures MapAll(xs, f).Ok? ==> first == None
  {
    outs := [];
    first := None;
    ghost var at := 0;
    var i := 0;
    while i < |xs|
      invariant 0 <= i <= |xs| && |outs| == i && forall k :: 0 <= k < i ==> outs[k] == f(xs[k])
      invariant first.None? ==> forall k :: 0 <= k < i ==> f(xs[k]).Ok?
      invariant first.Some? ==> at < i && f(xs[at]) == Err(first.value) && forall k :: 0 <= k < at ==> f(xs[k]).Ok?
    {
      var o := f(xs[i]);
      if o.Err? && first.None? {
        first, at := Some(o.error), i;
      }
      outs := outs + [o];
      i := i + 1;
    }
    if first.Some? {
      MapAllFirstError(xs, f, at);
    }
  }
}
