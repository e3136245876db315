/**
 * Owning entities: the objects a repository hands out and mutates in place,
 * and the meaning of a loop that rewrites each of them in turn.
 *
 * The same entity object may occur more than once in a list; a pass over the
 * list is then specified on a snapshot of the rows by object (`Run`), which
 * rewrites an object as often as it occurs. For lists without repeats,
 * `RunClean` and `RunFailsAt` state the plain per-entity reading.
 */
module Entities {
  import opened Wrappers
  import opened JsValues
  import opened Seqs
  import opened Errors

  /** An entity object; `fields` are its own enumerable properties. */
  class Entity {
    var fields: Row

    constructor (fields: Row)
      ensures this.fields == fields
    {
      this.fields := fields;
    }
  }

  /** The rows of `entities`, in list order. */
  function Rows(entities: seq<Entity>): (rows: seq<Row>)
    reads entities
    ensures |rows| == |entities|
    ensures forall i :: 0 <= i < |entities| ==> rows[i] == entities[i].fields
  {
    seq(|entities|, i reads entities requires 0 <= i < |entities| => entities[i].fields)
  }

  /** The row of each entity object of `entities`. */
  function Snapshot(entities: seq<Entity>): (st: map<Entity, Row>)
    reads entities
    ensures forall i :: 0 <= i < |entities| ==> entities[i] in st && RowOf(st, entities[i]) == entities[i].fields
  {
    map e | e in entities :: e.fields
  }

  /** The row one rewrite leaves, and the exception it threw, if any. */
  datatype Step = Step(row: Row, error: Option<Error>)

  /** The rows after a pass, by object, and the exception that ended it, if any. */
  datatype Outcome = Outcome(rows: map<Entity, Row>, error: Option<Error>)

  /** The row held for `e` (empty when there is none). */
  function RowOf(rows: map<Entity, Row>, e: Entity): Row
  {
    if e in rows then rows[e] else map[]
  }

  /**
   * Rewriting the entities of `entities` in list order with `f`, starting from
   * the rows in `st`; the first exception ends the pass, leaving the row it
   * was thrown on as `f` left it.
   */
  function Run(st: map<Entity, Row>, entities: seq<Entity>, f: Row -> Step): (o: Outcome)
    decreases |entities|
  {
    if entities == [] then Outcome(st, None)
    else
      var n := |entities| - 1;
      var o := Run(st, entities[..n], f);
      if o.error.Some? then o
      else
        var s := f(RowOf(o.rows, entities[n]));
        Outcome(o.rows[entities[n] := s.row], s.error)
  }

  /** A pass leaves the rows of objects not in the list alone. */
  lemma {:induction false} RunFrame(st: map<Entity, Row>, entities: seq<Entity>, f: Row -> Step, e: Entity)
    requires e !in entities
    ensures RowOf(Run(st, entities, f).rows, e) == RowOf(st, e)
    decreases |entities|
  {
    if entities != [] {
      RunFrame(st, entities[..|entities| - 1], f, e);
    }
  }

  /** A pass reads only the rows of the objects in the list. */
  lemma {:induction false} RunAgree(st1: map<Entity, Row>, st2: map<Entity, Row>, entities: seq<Entity>, f: Row -> Step)
    requires forall k :: 0 <= k < |entities| ==> RowOf(st1, entities[k]) == RowOf(st2, entities[k])
    ensures Run(st1, entities, f).error == Run(st2, entities, f).error
    ensures forall k :: 0 <= k < |entities| ==>
              RowOf(Run(st1, entities, f).rows, entities[k]) == RowOf(Run(st2, entities, f).rows, entities[k])
    decreases |entities|
  {
    if entities != [] {
      var n := |entities| - 1;
      var init, last := entities[..n], entities[n];
      forall k | 0 <= k < n ensures RowOf(st1, init[k]) == RowOf(st2, init[k]) {
        assert init[k] == entities[k];
      }
      RunAgree(st1, st2, init, f);
      var o1, o2 := Run(st1, init, f), Run(st2, init, f);
      assert RowOf(o1.rows, last) == RowOf(o2.rows, last) by {
        if last !in init {
          RunFrame(st1, init, f, last);
          RunFrame(st2, init, f, last);
        } else {
          var j :| 0 <= j < n && init[j] == last;
        }
      }
      forall k | 0 <= k < |entities|
        ensures RowOf(Run(st1, entities, f).rows, entities[k]) == RowOf(Run(st2, entities, f).rows, entities[k])
      {
        if k < n {
          assert entities[k] == init[k];
        }
      }
    }
  }

  /** Once a pass has failed on a prefix, the rest of the list is not visited. */
  lemma {:induction false} RunStops(st: map<Entity, Row>, entities: seq<Entity>, f: Row -> Step, m: nat)
    requires m <= |entities| && Run(st, entities[..m], f).error.Some?
    ensures Run(st, entities, f) == Run(st, entities[..m], f)
    decreases |entities|
  {
    if m < |entities| {
      var n := |entities| - 1;
      assert entities[..n][..m] == entities[..m];
      RunStops(st, entities[..n], f, m);
    } else {
      assert entities[..m] == entities;
    }
  }

  /**
   * Without repeated objects and without failures, each entity ends up
   * holding `f` of its own starting row.
   */
  lemma {:induction false} RunClean(st: map<Entity, Row>, entities: seq<Entity>, f: Row -> Step)
    requires NoDup(entities)
    requires forall i :: 0 <= i < |entities| ==> f(RowOf(st, entities[i])).error.None?
    ensures Run(st, entities, f).error.None?
    ensures forall i :: 0 <= i < |entities| ==> RowOf(Run(st, entities, f).rows, entities[i]) == f(RowOf(st, entities[i])).row
    decreases |entities|
  {
    if entities != [] {
      var n := |entities| - 1;
      var init, last := entities[..n], entities[n];
      assert NoDup(init);
      RunClean(st, init, f);
      assert last !in init;
      RunFrame(st, init, f, last);
      forall i | 0 <= i < n ensures entities[i] == init[i] && entities[i] != last {
      }
    }
  }

  /**
   * Without repeated objects, a pass whose first failing rewrite is that of
   * entity `k` throws that rewrite's exception; the entities before `k` hold
   * `f` of their starting rows, entity `k` its partial row, and the entities
   * after `k` their starting rows.
   */
  lemma RunFailsAt(st: map<Entity, Row>, entities: seq<Entity>, f: Row -> Step, k: nat)
    requires NoDup(entities)
    requires k < |entities| && f(RowOf(st, entities[k])).error.Some?
    requires forall j :: 0 <= j < k ==> f(RowOf(st, entities[j])).error.None?
    ensures Run(st, entities, f).error == f(RowOf(st, entities[k])).error
    ensures forall i :: 0 <= i <= k ==> RowOf(Run(st, entities, f).rows, entities[i]) == f(RowOf(st, entities[i])).row
    ensures forall j :: k < j < |entities| ==> RowOf(Run(st, entities, f).rows, entities[j]) == RowOf(st, entities[j])
  {
    var before, last, pre := entities[..k], entities[k], entities[..k + 1];
    assert NoDup(before);
    RunClean(st, before, f);
    assert pre[..k] == before && pre[k] == last;
    assert last !in before;
    RunFrame(st, before, f, last);
    var o := Run(st, before, f);
    var out := Run(st, pre, f);
    assert out == Outcome(o.rows[last := f(RowOf(st, last)).row], f(RowOf(st, last)).error);
    RunStops(st, entities, f, k + 1);
    assert Run(st, entities, f) == out;
    forall i | 0 <= i < k ensures RowOf(out.rows, entities[i]) == f(RowOf(st, entities[i])).row {
      assert entities[i] == before[i] && entities[i] != last;
    }
    forall j | k < j < |entities| ensures RowOf(out.rows, entities[j]) == RowOf(st, entities[j]) {
      assert entities[j] !in pre;
      RunFrame(st, pre, f, entities[j]);
    }
  }

  /**
   * A `reduce` over `items` that rewrites one row: each item's step applies
   * to the row the previous ones left, and the first exception ends it,
   * leaving the row as it was when that step threw.
   */
  function Chain<T>(row: Row, items: seq<T>, step: (Row, T) -> Step): (s: Step)
    decreases |items|
  {
    if items == [] then Step(row, None)
    else
      var s := Chain(row, items[..|items| - 1], step);
      if s.error.Some? then s else step(s.row, items[|items| - 1])
  }

  /** Once a chain has failed on a prefix, the remaining items are not applied. */
  lemma {:induction false} ChainStops<T>(row: Row, items: seq<T>, step: (Row, T) -> Step, m: nat)
    requires m <= |items| && Chain(row, items[..m], step).error.Some?
    ensures Chain(row, items, step) == Chain(row, items[..m], step)
    decreases |items|
  {
    if m < |items| {
      var n := |items| - 1;
      assert items[..n][..m] == items[..m];
      ChainStops(row, items[..n], step, m);
    } else {
      assert items[..m] == items;
    }
  }

  /** A pass over one entity applies `f` to its row once. */
  lemma RunSingle(st: map<Entity, Row>, e: Entity, f: Row -> Step)
    ensures Run(st, [e], f) == Outcome(st[e := f(RowOf(st, e)).row], f(RowOf(st, e)).error)
  {
    assert [e][..0] == [];
  }
}
