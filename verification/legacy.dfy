/**
 * The older revision of the repository: rows are hydrated one at a time,
 * each with its own lookups; `hasMany` results are merged by a `reduce`
 * seeded with the results themselves; `save` stamps the parents' ids and
 * delegates; and a cascade routine (`savePolymorhic`, `savePolymorphs`)
 * stamps and saves the children held by an entity.
 */
module LegacyRepository {
  import opened Wrappers
  import opened JsValues
  import opened Seqs
  import opened Errors
  import opened PolymorphicInterface
  import opened Columns
  import opened Locator
  import opened Queries
  import opened Entities
  import opened Decorators
  import opened PolymorphicMetadata
  import opened Persistence

  /**
   * The `where` object of the older `findPolymorphs`: the id column equal to
   * the owning row's primary key, the type column equal to the target type.
   * The type column is written second and wins when both have the same name.
   */
  function LegacyCriteria(row: Row, entityType: Value, m: Metadata): (c: Criteria)
    ensures c.Keys == {EntityIdColumn(m), EntityTypeColumn(m)}
    ensures c[EntityTypeColumn(m)] == Equals(entityType)
    ensures EntityIdColumn(m) != EntityTypeColumn(m) ==> c[EntityIdColumn(m)] == Equals(Get(row, PrimaryColumn(m)))
  {
    map[EntityIdColumn(m) := Equals(Get(row, PrimaryColumn(m)))][EntityTypeColumn(m) := Equals(entityType)]
  }

  /**
   * `findPolymorphs(parent, entityType, options)` of the older revision:
   * `find` when the descriptor has many, `findOne` otherwise, on the
   * repository of the target type.
   */
  function LegacyFindPolymorphs(env: Env, row: Row, entityType: Value, m: Metadata): Result<Value, Error>
  {
    var repo :- FindRepository(env, entityType);
    Ok(Execute(env, Query(repo, if m.hasMany then Find else FindOne, LegacyCriteria(row, entityType, m))))
  }

  /**
   * The lookup fails exactly when the target's repository is not found; it
   * runs the older criteria, with `find` (an array) when the descriptor has
   * many and `findOne` otherwise.
   */
  lemma LegacyFindPolymorphsSpec(env: Env, row: Row, entityType: Value, m: Metadata)
    ensures var r := LegacyFindPolymorphs(env, row, entityType, m);
            (r.Ok? <==> FindRepository(env, entityType).Ok?)
            && (r.Err? ==> r.error == RepositoryNotFound(ResolveRepositoryToken(env.registrations, entityType)))
            && (r.Ok? ==>
                  r.value == Execute(env, Query(FindRepository(env, entityType).value, if m.hasMany then Find else FindOne,
                                                LegacyCriteria(row, entityType, m))))
            && (r.Ok? && m.hasMany ==> r.value.Arr?)
  {
  }

  /** With `hasMany`, every lookup was a `find` and returned an array. */
  lemma LegacyLookupsArrays(env: Env, row: Row, m: Metadata)
    requires m.hasMany && LegacyLookups(env, row, m).Ok?
    ensures forall i :: 0 <= i < |LegacyLookups(env, row, m).value| ==> LegacyLookups(env, row, m).value[i].Arr?
  {
    var types := ClassTypes(m);
    forall i | 0 <= i < |types| {
      LegacyFindPolymorphsSpec(env, row, types[i], m);
    }
  }

  /** The lookups of one descriptor for one row, one per declared type, in `classType` order. */
  function LegacyLookups(env: Env, row: Row, m: Metadata): Result<seq<Value>, Error>
  {
    MapAll(ClassTypes(m), t => LegacyFindPolymorphs(env, row, t, m))
  }

  /**
   * The accumulator of `results.reduce((acc, entities) => entities.concat(...acc), results)`
   * after `n` steps: each step puts the next result's rows in front of the
   * spread accumulator.
   */
  function MergeAcc(results: seq<Value>, n: nat): seq<Value>
    requires n <= |results|
    requires forall i :: 0 <= i < |results| ==> results[i].Arr?
  {
    if n == 0 then results
    else results[n - 1].elems + Spread(MergeAcc(results, n - 1))
  }

  /** The rows of the first `n` results, last result first. */
  function RevConcat(results: seq<Value>, n: nat): seq<Value>
    requires n <= |results|
    requires forall i :: 0 <= i < |results| ==> results[i].Arr?
  {
    if n == 0 then [] else results[n - 1].elems + RevConcat(results, n - 1)
  }

  /** No found row is itself an array. */
  predicate FlatResults(results: seq<Value>)
  {
    forall i :: 0 <= i < |results| ==> results[i].Arr? && forall j :: 0 <= j < |results[i].elems| ==> !results[i].elems[j].Arr?
  }

  /** Without arrays among the rows, `RevConcat` holds no array either. */
  lemma {:induction false} RevConcatFlat(results: seq<Value>, n: nat)
    requires n <= |results| && FlatResults(results)
    ensures forall j :: 0 <= j < |RevConcat(results, n)| ==> !RevConcat(results, n)[j].Arr?
    decreases n
  {
    if n > 0 {
      RevConcatFlat(results, n - 1);
      var a: seq<Value>, b: seq<Value> := results[n - 1].elems, RevConcat(results, n - 1);
      forall j | 0 <= j < |a + b| ensures !(a + b)[j].Arr? {
        if j >= |a| {
          assert (a + b)[j] == b[j - |a|];
        }
      }
    }
  }

  /**
   * The merge seeded with the results: after `n > 0` steps the accumulator
   * is the first `n` results' rows in reverse order followed by every
   * result's rows once more.
   */
  lemma {:induction false} MergeShape(results: seq<Value>, n: nat)
    requires 0 < n <= |results| && FlatResults(results)
    ensures MergeAcc(results, n) == RevConcat(results, n) + Spread(results)
    decreases n
  {
    if n == 1 {
      assert RevConcat(results, 1) == results[0].elems;
    } else {
      MergeShape(results, n - 1);
      var prev := MergeAcc(results, n - 1);
      RevConcatFlat(results, n - 1);
      SpreadFlat(Spread(results), results);
      forall j | 0 <= j < |prev| ensures !prev[j].Arr? {
        if j >= |RevConcat(results, n - 1)| {
          assert prev[j] == Spread(results)[j - |RevConcat(results, n - 1)|];
        }
      }
      SpreadMembers(prev);
    }
  }

  /** Spreading flat results gives no array. */
  lemma SpreadFlat(s: seq<Value>, results: seq<Value>)
    requires FlatResults(results) && s == Spread(results)
    ensures forall j :: 0 <= j < |s| ==> !s[j].Arr?
  {
    SpreadMembers(results);
    forall j | 0 <= j < |s| ensures !s[j].Arr? {
      assert s[j] in Spread(results);
      var i :| 0 <= i < |results| && (if results[i].Arr? then s[j] in results[i].elems else s[j] == results[i]);
    }
  }

  /** One target type: the rows come back twice. */
  lemma MergeOneType(r0: seq<Value>)
    requires forall j :: 0 <= j < |r0| ==> !r0[j].Arr?
    ensures MergeAcc([Arr(r0)], 1) == r0 + r0
  {
    MergeShape([Arr(r0)], 1);
    assert Spread([Arr(r0)]) == Spread([]) + r0;
  }

  /** Two target types: the second type's rows, then both types' rows, then the second's again. */
  lemma MergeTwoTypes(r0: seq<Value>, r1: seq<Value>)
    requires forall j :: 0 <= j < |r0| ==> !r0[j].Arr?
    requires forall j :: 0 <= j < |r1| ==> !r1[j].Arr?
    ensures MergeAcc([Arr(r0), Arr(r1)], 2) == r1 + r0 + r0 + r1
  {
    var results := [Arr(r0), Arr(r1)];
    MergeShape(results, 2);
    assert RevConcat(results, 1) == r0 + RevConcat(results, 0);
    assert RevConcat(results, 2) == r1 + r0;
    assert results[..1] == [Arr(r0)];
    assert Spread(results) == Spread([Arr(r0)]) + r1;
    assert Spread([Arr(r0)]) == Spread([]) + r0;
  }

  /** Every row found is merged twice: the merge holds each row exactly twice as often as the results do. */
  lemma MergeDuplicates(results: seq<Value>)
    requires |results| > 0 && FlatResults(results)
    ensures multiset(MergeAcc(results, |results|)) == multiset(Spread(results)) + multiset(Spread(results))
  {
    var n := |results|;
    MergeShape(results, n);
    RevConcatSpread(results, n);
    assert results[..n] == results;
    assert multiset(RevConcat(results, n) + Spread(results)) == multiset(RevConcat(results, n)) + multiset(Spread(results));
  }

  /** The reversed concatenation holds the same rows as the spread. */
  lemma {:induction false} RevConcatSpread(results: seq<Value>, n: nat)
    requires n <= |results|
    requires forall i :: 0 <= i < |results| ==> results[i].Arr?
    ensures multiset(RevConcat(results, n)) == multiset(Spread(results[..n]))
    decreases n
  {
    if n > 0 {
      RevConcatSpread(results, n - 1);
      assert results[..n][..n - 1] == results[..n - 1];
      assert results[..n][n - 1] == results[n - 1];
    } else {
      assert results[..0] == [];
    }
    if n == |results| {
      assert results[..n] == results;
    }
  }

  /** The hydration record of one descriptor: its property, its direction and the value found. */
  datatype LegacyHydration = LegacyHydration(key: string, kind: Direction, values: Value)

  /**
   * `hydrateEntities(entity, options)`: all lookups of the descriptor; with
   * `hasMany` and at least one type, every lookup was a `find` and the
   * results are merged, otherwise the results are kept as they are.
   */
  function LegacyHydrationOf(env: Env, row: Row, m: Metadata): Result<LegacyHydration, Error>
  {
    var results :- LegacyLookups(env, row, m);
    var values :=
      if m.hasMany && |results| > 0 && results[0].Arr? then
        assert forall i :: 0 <= i < |results| ==> results[i].Arr? by {
          LegacyLookupsArrays(env, row, m);
        }
        Arr(MergeAcc(results, |results|))
      else Arr(results);
    Ok(LegacyHydration(m.propertyKey, m.kind, values))
  }

  /** With `hasMany`, the merged value holds every found row twice. */
  lemma LegacyHasManyDuplicates(env: Env, row: Row, m: Metadata)
    requires m.hasMany && LegacyLookups(env, row, m).Ok? && |ClassTypes(m)| > 0
    requires FlatResults(LegacyLookups(env, row, m).value)
    ensures var results := LegacyLookups(env, row, m).value;
            LegacyHydrationOf(env, row, m).value.values.Arr?
            && multiset(LegacyHydrationOf(env, row, m).value.values.elems) == multiset(Spread(results)) + multiset(Spread(results))
  {
    MergeDuplicates(LegacyLookups(env, row, m).value);
  }

  /** `undefined` or `null`. */
  predicate Nullish(v: Value)
  {
    v.Undefined? || v.Null?
  }

  /** `typeof v !== 'undefined' && v !== null`. */
  predicate Present(v: Value)
  {
    !Nullish(v)
  }

  /** `values.filter(v => typeof v !== 'undefined' && v !== null)[0]`. */
  function FirstPresent(vs: seq<Value>): Value
  {
    var present := Filter(vs, Present);
    if present == [] then Undefined else present[0]
  }

  /**
   * A parent property receives the first result that is neither `undefined`
   * nor `null`, in `classType` order, and `undefined` when there is none.
   */
  lemma FirstPresentSpec(vs: seq<Value>)
    ensures (forall i :: 0 <= i < |vs| ==> Nullish(vs[i])) ==> FirstPresent(vs) == Undefined
    ensures forall i :: 0 <= i < |vs| && !Nullish(vs[i]) && (forall j :: 0 <= j < i ==> Nullish(vs[j])) ==>
              FirstPresent(vs) == vs[i]
  {
    if forall i :: 0 <= i < |vs| ==> Nullish(vs[i]) {
      FilterNone(vs, Present);
    }
    forall i | 0 <= i < |vs| && !Nullish(vs[i]) && (forall j :: 0 <= j < i ==> Nullish(vs[j]))
      ensures FirstPresent(vs) == vs[i]
    {
      FilterFirst(vs, Present, i);
    }
  }

  /** The value `hydratePolymorphs` assigns for one hydration record. */
  function AssignedValue(h: LegacyHydration): Value
  {
    if h.kind == Parent && h.values.Arr? then FirstPresent(h.values.elems) else h.values
  }

  /** The `values.reduce(...)` of `hydratePolymorphs`: each record assigns its property in turn. */
  function LegacyAssign(row: Row, hs: seq<LegacyHydration>): Row
    decreases |hs|
  {
    if hs == [] then row
    else
      var n := |hs| - 1;
      LegacyAssign(row, hs[..n])[hs[n].key := AssignedValue(hs[n])]
  }

  /** Assigning leaves every property that is no record's key as it was. */
  lemma {:induction false} LegacyAssignFrame(row: Row, hs: seq<LegacyHydration>, k: string)
    requires forall i :: 0 <= i < |hs| ==> hs[i].key != k
    ensures Get(LegacyAssign(row, hs), k) == Get(row, k)
    decreases |hs|
  {
    if hs != [] {
      LegacyAssignFrame(row, hs[..|hs| - 1], k);
    }
  }

  /** The last record with a given key decides that property's value. */
  lemma {:induction false} LegacyAssignAt(row: Row, hs: seq<LegacyHydration>, i: nat)
    requires i < |hs| && forall j :: i < j < |hs| ==> hs[j].key != hs[i].key
    ensures Get(LegacyAssign(row, hs), hs[i].key) == AssignedValue(hs[i])
    decreases |hs|
  {
    var n := |hs| - 1;
    if i < n {
      assert hs[..n][i] == hs[i];
      assert forall j :: i < j < n ==> hs[..n][j] == hs[j];
      LegacyAssignAt(row, hs[..n], i);
    }
  }

  /** Assigning twice is assigning once: the values assigned do not depend on the row. */
  lemma LegacyAssignIdempotent(row: Row, hs: seq<LegacyHydration>)
    ensures LegacyAssign(LegacyAssign(row, hs), hs) == LegacyAssign(row, hs)
  {
    var once := LegacyAssign(row, hs);
    var twice := LegacyAssign(once, hs);
    LegacyAssignKeys(row, hs);
    LegacyAssignKeys(once, hs);
    assert twice.Keys == once.Keys;
    forall k | k in once ensures twice[k] == once[k] {
      if exists i :: 0 <= i < |hs| && hs[i].key == k {
        var i := LastWith(hs, k);
        LegacyAssignAt(row, hs, i);
        LegacyAssignAt(once, hs, i);
      } else {
        LegacyAssignFrame(once, hs, k);
      }
    }
  }

  /** The index of the last record with key `k`. */
  function LastWith(hs: seq<LegacyHydration>, k: string): (i: nat)
    requires exists i :: 0 <= i < |hs| && hs[i].key == k
    ensures i < |hs| && hs[i].key == k && forall j :: i < j < |hs| ==> hs[j].key != k
    decreases |hs|
  {
    var n := |hs| - 1;
    if hs[n].key == k then n
    else
      assert exists i :: 0 <= i < n && hs[..n][i].key == k by {
        var i :| 0 <= i < |hs| && hs[i].key == k;
        assert hs[..n][i] == hs[i];
      }
      var i := LastWith(hs[..n], k);
      assert hs[..n][i] == hs[i];
      i
  }

  /** Assigning adds exactly the records' keys to the row. */
  lemma {:induction false} LegacyAssignKeys(row: Row, hs: seq<LegacyHydration>)
    ensures LegacyAssign(row, hs).Keys == row.Keys + set i | 0 <= i < |hs| :: hs[i].key
    decreases |hs|
  {
    if hs != [] {
      var n := |hs| - 1;
      LegacyAssignKeys(row, hs[..n]);
      assert (set i | 0 <= i < |hs| :: hs[i].key) == (set i | 0 <= i < n :: hs[..n][i].key) + {hs[n].key};
    }
  }

  /** The hydration records of all descriptors for one row; the first failing lookup rejects. */
  function LegacyHydrations(env: Env, row: Row, metas: seq<Metadata>): Result<seq<LegacyHydration>, Error>
  {
    MapAll(metas, m => LegacyHydrationOf(env, row, m))
  }

  /** A row with the records assigned when the lookups succeeded, untouched otherwise. */
  function Applied(row: Row, hs: Result<seq<LegacyHydration>, Error>): Row
  {
    if hs.Ok? then LegacyAssign(row, hs.value) else row
  }

  /** The row one entity is left with: hydrated when all its lookups succeeded, untouched otherwise. */
  function LegacyHydrated(env: Env, row: Row, metas: seq<Metadata>): Row
  {
    Applied(row, LegacyHydrations(env, row, metas))
  }

  /** The `reduce` of `hydratePolymorphs`, assigning on the entity itself. */
  method ApplyHydrations(e: Entity, hs: seq<LegacyHydration>)
    modifies e
    ensures e.fields == LegacyAssign(old(e.fields), hs)
  {
    var i := 0;
    while i < |hs|
      invariant 0 <= i <= |hs|
      invariant e.fields == LegacyAssign(old(e.fields), hs[..i])
    {
      assert hs[..i + 1][..i] == hs[..i];
      e.fields := e.fields[hs[i].key := AssignedValue(hs[i])];
      i := i + 1;
    }
    assert hs[..i] == hs;
  }

  /** `hydratePolymorphs(entity, options)` of the older revision. */
  method LegacyHydratePolymorphs(env: Env, entity: Entity, metas: seq<Metadata>) returns (r: Result<Entity, Error>)
    modifies entity
    ensures var hs := LegacyHydrations(env, old(entity.fields), metas);
            (hs.Err? ==> r == Err(hs.error))
            && (hs.Ok? ==> r == Ok(entity))
            && entity.fields == LegacyHydrated(env, old(entity.fields), metas)
  {
    var hs := LegacyHydrations(env, entity.fields, metas);
    if hs.Err? {
      return Err(hs.error);
    }
    ApplyHydrations(entity, hs.value);
    r := Ok(entity);
  }

  /**
   * Each entity whose lookups succeeded gets its records assigned, in list
   * order; an entity listed twice has the same records and is assigned
   * twice, which changes nothing more.
   */
  method ApplyAll(entities: seq<Entity>, outs: seq<Result<seq<LegacyHydration>, Error>>)
    requires |outs| == |entities|
    requires forall j, k :: 0 <= j < |entities| && 0 <= k < |entities| && entities[j] == entities[k] ==> outs[j] == outs[k]
    modifies set e | e in entities
    ensures forall k :: 0 <= k < |entities| ==> entities[k].fields == Applied(old(entities[k].fields), outs[k])
  {
    var j := 0;
    while j < |entities|
      invariant 0 <= j <= |entities|
      invariant forall k :: 0 <= k < |entities| ==>
                  entities[k].fields == (if entities[k] in entities[..j] then Applied(old(entities[k].fields), outs[k])
                                         else old(entities[k].fields))
    {
      var e := entities[j];
      if outs[j].Ok? {
        if e in entities[..j] {
          LegacyAssignIdempotent(old(e.fields), outs[j].value);
        }
        ApplyHydrations(e, outs[j].value);
      }
      assert forall k :: 0 <= k < |entities| ==> (entities[k] in entities[..j + 1] <==> entities[k] in entities[..j] || entities[k] == e);
      j := j + 1;
    }
    assert forall k :: 0 <= k < |entities| ==> entities[k] in entities[..j];
  }

  /**
   * `Promise.all(entities.map(entity => this.hydratePolymorphs(entity, metadata)))`:
   * every lookup reads the rows as they were on entry; each entity whose
   * lookups all succeeded is hydrated (an entity listed twice ends up
   * hydrated once over); the call rejects with the first failure, in list
   * order, and resolves to the same entities otherwise.
   */
  method LegacyHydrateRows(env: Env, entities: seq<Entity>, metas: seq<Metadata>) returns (r: Result<seq<Entity>, Error>)
    modifies set e | e in entities
    ensures forall k :: 0 <= k < |entities| ==> entities[k].fields == LegacyHydrated(env, old(entities[k].fields), metas)
    ensures var all := MapAll(old(Rows(entities)), row => LegacyHydrations(env, row, metas));
            (all.Err? ==> r == Err(all.error)) && (all.Ok? ==> r == Ok(entities))
  {
    r := HydrateRowsWith(entities, row => LegacyHydrations(env, row, metas));
  }

  /** `LegacyHydrateRows` for any way of computing an entity's records from its row. */
  method HydrateRowsWith(entities: seq<Entity>, hydrate: Row -> Result<seq<LegacyHydration>, Error>) returns (r: Result<seq<Entity>, Error>)
    modifies set e | e in entities
    ensures forall k :: 0 <= k < |entities| ==> entities[k].fields == Applied(old(entities[k].fields), hydrate(old(entities[k].fields)))
    ensures var all := MapAll(old(Rows(entities)), hydrate);
            (all.Err? ==> r == Err(all.error)) && (all.Ok? ==> r == Ok(entities))
  {
    var outs, first := AllOutcomes(Rows(entities), hydrate);
    r := if first.Some? then Err(first.value) else Ok(entities);
    ApplyAll(entities, outs);
  }

  /**
   * `hydrateMany(entities)`: each entity through `hydrateOne`; reading the
   * metadata fails for every entity alike, before anything is written.
   */
  method LegacyHydrateMany(env: Env, bag: MetadataBag, entities: seq<Entity>) returns (r: Result<seq<Entity>, Error>)
    modifies set e | e in entities
    ensures var metas := OlderGetPolymorphicMetadata(bag);
            (metas.Err? ==> r == Err(metas.error) && forall k :: 0 <= k < |entities| ==> entities[k].fields == old(entities[k].fields))
            && (metas.Ok? ==>
                  (forall k :: 0 <= k < |entities| ==> entities[k].fields == LegacyHydrated(env, old(entities[k].fields), metas.value))
                  && var all := MapAll(old(Rows(entities)), row => LegacyHydrations(env, row, metas.value));
                     (all.Err? ==> r == Err(all.error)) && (all.Ok? ==> r == Ok(entities)))
  {
    var metas := OlderGetPolymorphicMetadata(bag);
    if metas.Err? {
      return Err(metas.error);
    }
    r := LegacyHydrateRows(env, entities, metas.value);
  }

  /** `hydrateOne(entity)`: the descriptors, then `hydratePolymorphs`. */
  method LegacyHydrateOne(env: Env, bag: MetadataBag, entity: Entity) returns (r: Result<Entity, Error>)
    modifies entity
    ensures var metas := OlderGetPolymorphicMetadata(bag);
            (metas.Err? ==> r == Err(metas.error) && entity.fields == old(entity.fields))
            && (metas.Ok? ==>
                  var hs := LegacyHydrations(env, old(entity.fields), metas.value);
                  (hs.Err? ==> r == Err(hs.error)) && (hs.Ok? ==> r == Ok(entity))
                  && entity.fields == LegacyHydrated(env, old(entity.fields), metas.value))
  {
    var metas := OlderGetPolymorphicMetadata(bag);
    if metas.Err? {
      return Err(metas.error);
    }
    r := LegacyHydratePolymorphs(env, entity, metas.value);
  }

  /** `find(options)` of the older revision, over the entities the ORM found. */
  method LegacyFind(env: Env, bag: MetadataBag, found: seq<Entity>) returns (r: Result<seq<Entity>, Error>)
    modifies set e | e in found
    ensures !IsPolymorph(bag) ==> r == Ok(found) && forall k :: 0 <= k < |found| ==> found[k].fields == old(found[k].fields)
    ensures IsPolymorph(bag) ==>
              var metas := OlderGetPolymorphicMetadata(bag);
              (metas.Err? ==> r == Err(metas.error) && forall k :: 0 <= k < |found| ==> found[k].fields == old(found[k].fields))
              && (metas.Ok? ==>
                    (forall k :: 0 <= k < |found| ==> found[k].fields == LegacyHydrated(env, old(found[k].fields), metas.value))
                    && var all := MapAll(old(Rows(found)), row => LegacyHydrations(env, row, metas.value));
                       (all.Err? ==> r == Err(all.error)) && (all.Ok? ==> r == Ok(found)))
  {
    if !IsPolymorph(bag) {
      return Ok(found);
    }
    r := LegacyHydrateMany(env, bag, found);
  }

  /**
   * `findOne(...)` of the older revision: the descriptors are read first;
   * with none, or when the ORM found nothing, its answer is returned as it
   * is; a found entity is hydrated.
   */
  method LegacyFindOne(env: Env, bag: MetadataBag, found: Option<Entity>) returns (r: Result<Option<Entity>, Error>)
    modifies if found.Some? then {found.value} else {}
    ensures OlderGetPolymorphicMetadata(bag).Err? ==> r == Err(OlderGetPolymorphicMetadata(bag).error)
    ensures OlderGetPolymorphicMetadata(bag).Ok? && (OlderGetPolymorphicMetadata(bag).value == [] || found.None?) ==>
              r == Ok(found)
    ensures found.Some? ==>
              var metas := OlderGetPolymorphicMetadata(bag);
              if metas.Ok? && metas.value != [] then
                var hs := LegacyHydrations(env, old(found.value.fields), metas.value);
                (hs.Err? ==> r == Err(hs.error)) && (hs.Ok? ==> r == Ok(found))
                && found.value.fields == LegacyHydrated(env, old(found.value.fields), metas.value)
              else found.value.fields == old(found.value.fields)
  {
    var metas := OlderGetPolymorphicMetadata(bag);
    if metas.Err? {
      return Err(metas.error);
    }
    if metas.value == [] || found.None? {
      return Ok(found);
    }
    var e := LegacyHydratePolymorphs(env, found.value, metas.value);
    if e.Err? {
      return Err(e.error);
    }
    r := Ok(Some(e.value));
  }

  /**
   * `save(entityOrEntities)` of the older revision: a class with no
   * polymorphic property passes straight through; otherwise the parents'
   * ids are stamped as in the current revision and the (stamped) entities
   * are handed to the ORM's `save`, with no deletes.
   */
  method LegacySave(env: Env, bag: MetadataBag, entities: seq<Entity>) returns (r: Result<seq<Entity>, Error>)
    modifies set e | e in entities
    ensures !IsPolymorph(bag) ==> r == Ok(entities) && forall k :: 0 <= k < |entities| ==> entities[k].fields == old(entities[k].fields)
    ensures IsPolymorph(bag) && OlderGetPolymorphicMetadata(bag).Err? ==>
              r == Err(OlderGetPolymorphicMetadata(bag).error)
              && forall k :: 0 <= k < |entities| ==> entities[k].fields == old(entities[k].fields)
    ensures IsPolymorph(bag) && OlderGetPolymorphicMetadata(bag).Ok? ==>
              r == Ok(entities)
              && forall k :: 0 <= k < |entities| ==>
                   entities[k].fields == RowOf(StampAll(old(Snapshot(entities)), entities, OlderGetPolymorphicMetadata(bag).value, env.className), entities[k])
  {
    if !IsPolymorph(bag) {
      return Ok(entities);
    }
    var metas := OlderGetPolymorphicMetadata(bag);
    if metas.Err? {
      return Err(metas.error);
    }
    StampParents(env.className, entities, metas.value);
    r := Ok(entities);
  }

  /**
   * Stamping one child of the cascade: an object gets the owner's id-column
   * value (not its primary key) in its id column and the owner class's
   * target name in its type column. Setting a property on `undefined`,
   * `null` or a primitive throws in strict-mode code; properties set on a
   * class or an array are not part of the model.
   */
  function StampChild(owner: Row, m: Metadata, targetName: string, child: Value): (r: Result<Value, Error>)
    ensures r.Err? <==> !(child.Obj? || child.Class? || child.Arr?)
    ensures child.Obj? ==>
              r.Ok? && r.value.Obj? && r.value.cls == child.cls
              && Get(r.value.fields, EntityTypeColumn(m)) == Str(targetName)
              && (EntityIdColumn(m) != EntityTypeColumn(m) ==> Get(r.value.fields, EntityIdColumn(m)) == Get(owner, EntityIdColumn(m)))
              && forall k :: k != EntityIdColumn(m) && k != EntityTypeColumn(m) ==> Get(r.value.fields, k) == Get(child.fields, k)
  {
    match child
    case Obj(cls, fields) =>
      Ok(Obj(cls, fields[EntityIdColumn(m) := Get(owner, EntityIdColumn(m))][EntityTypeColumn(m) := Str(targetName)]))
    case Class(_) => Ok(child)
    case Arr(_) => Ok(child)
    case Undefined => Err(TypeError("Cannot set properties of undefined"))
    case Null => Err(TypeError("Cannot set properties of null"))
    case _ => Err(TypeError("Cannot create property on a primitive value"))
  }

  /** The array branch's `map`: the children stamped in order, until the first that throws. */
  function StampChildren(owner: Row, m: Metadata, targetName: string, children: seq<Value>): (r: (seq<Value>, Option<Error>))
    ensures |r.0| <= |children|
    ensures forall i :: 0 <= i < |r.0| ==> StampChild(owner, m, targetName, children[i]) == Ok(r.0[i])
    ensures r.1.None? <==> forall i :: 0 <= i < |children| ==> StampChild(owner, m, targetName, children[i]).Ok?
    ensures r.1.None? ==> |r.0| == |children|
    ensures r.1.Some? ==> |r.0| < |children| && StampChild(owner, m, targetName, children[|r.0|]) == Err(r.1.value)
  {
    MapUntilError(children, child => StampChild(owner, m, targetName, child))
  }

  /** What one cascade call did: the values handed to the manager's `save`, and its result. */
  datatype Cascade = Cascade(saves: seq<Value>, result: Result<Value, Error>)

  /**
   * `savePolymorhic(entity, options)`: nothing for a falsy property; each
   * child of an array stamped and saved, the saved children as the result;
   * a single child stamped and saved.
   */
  function SavePolymorhic(env: Env, owner: Row, m: Metadata, targetName: string): (c: Cascade)
    ensures !Truthy(Get(owner, m.propertyKey)) ==> c == Cascade([], Ok(Undefined))
    ensures |c.saves| <= (if Get(owner, m.propertyKey).Arr? then |Get(owner, m.propertyKey).elems| else 1)
    ensures forall i :: 0 <= i < |c.saves| ==>
              var v := Get(owner, m.propertyKey);
              var child := if v.Arr? then v.elems[i] else v;
              StampChild(owner, m, targetName, child) == Ok(c.saves[i])
    ensures c.result.Ok? && Get(owner, m.propertyKey).Arr? ==>
              |c.saves| == |Get(owner, m.propertyKey).elems|
              && c.result == Ok(Arr(seq(|c.saves|, i requires 0 <= i < |c.saves| => env.save(c.saves[i]))))
    ensures c.result.Err? ==> c.result.error.TypeError?
    ensures var v := Get(owner, m.propertyKey);
            Truthy(v) && v.Arr? ==>
              (c.result.Ok? <==> forall i :: 0 <= i < |v.elems| ==> StampChild(owner, m, targetName, v.elems[i]).Ok?)
              && (c.result.Err? ==> |c.saves| < |v.elems|
                                    && StampChild(owner, m, targetName, v.elems[|c.saves|]) == Err(c.result.error))
    ensures var v := Get(owner, m.propertyKey);
            var s := StampChild(owner, m, targetName, v);
            Truthy(v) && !v.Arr? ==>
              (s.Ok? ==> c.saves == [s.value] && c.result == Ok(env.save(s.value)))
              && (s.Err? ==> c == Cascade([], Err(s.error)))
  {
    var v := Get(owner, m.propertyKey);
    if !Truthy(v) then Cascade([], Ok(Undefined))
    else if v.Arr? then
      var stamped := StampChildren(owner, m, targetName, v.elems);
      if stamped.1.Some? then Cascade(stamped.0, Err(stamped.1.value))
      else Cascade(stamped.0, Ok(Arr(seq(|stamped.0|, i requires 0 <= i < |stamped.0| => env.save(stamped.0[i])))))
    else
      match StampChild(owner, m, targetName, v)
      case Ok(s) => Cascade([s], Ok(env.save(s)))
      case Err(e) => Cascade([], Err(e))
  }

  /** A descriptor's cascade call, or no call (resolving to `undefined`) for a descriptor without `cascade`. */
  function CallFor(env: Env, row0: Row, m: Metadata, targetName: string): Cascade
  {
    if m.cascade then SavePolymorhic(env, row0, m, targetName) else Cascade([], Ok(Undefined))
  }

  /** The calls of `savePolymorphs`, one per descriptor, all from the row on entry. */
  function CascadeCalls(env: Env, row0: Row, metas: seq<Metadata>, targetName: string): (cs: seq<Cascade>)
    ensures |cs| == |metas|
    ensures forall i :: 0 <= i < |metas| ==> cs[i] == CallFor(env, row0, metas[i], targetName)
  {
    seq(|metas|, i requires 0 <= i < |metas| => CallFor(env, row0, metas[i], targetName))
  }

  /**
   * What the calls lead to: the saves they issued, whether one of them
   * failed, and the row with each cascade property replaced by its call's
   * result, in descriptor order.
   */
  datatype CascadePlan = CascadePlan(saves: seq<Value>, failed: bool, row: Row)

  function Plan(row0: Row, metas: seq<Metadata>, calls: seq<Cascade>): CascadePlan
    requires |calls| == |metas|
    decreases |metas|
  {
    if metas == [] then CascadePlan([], false, row0)
    else
      var n := |metas| - 1;
      var p := Plan(row0, metas[..n], calls[..n]);
      var c := calls[n];
      if !metas[n].cascade then p
      else
        CascadePlan(p.saves + c.saves, p.failed || c.result.Err?,
                    if c.result.Ok? then p.row[metas[n].propertyKey := c.result.value] else p.row)
  }

  /**
   * Only cascade descriptors' properties are written: every property that
   * is not the key of a cascade descriptor keeps its value.
   */
  lemma {:induction false} CascadeTouchesOnlyCascadeKeys(row0: Row, metas: seq<Metadata>, calls: seq<Cascade>, k: string)
    requires |calls| == |metas|
    requires forall i :: 0 <= i < |metas| && metas[i].cascade ==> metas[i].propertyKey != k
    ensures Get(Plan(row0, metas, calls).row, k) == Get(row0, k)
    decreases |metas|
  {
    if metas != [] {
      var n := |metas| - 1;
      CascadeTouchesOnlyCascadeKeys(row0, metas[..n], calls[..n], k);
    }
  }

  /** A failure in a prefix is a failure of the whole. */
  lemma {:induction false} PlanFailedPrefix(row0: Row, metas: seq<Metadata>, calls: seq<Cascade>, m: nat)
    requires |calls| == |metas| && m <= |metas| && !Plan(row0, metas, calls).failed
    ensures !Plan(row0, metas[..m], calls[..m]).failed
    decreases |metas|
  {
    if m < |metas| {
      var n := |metas| - 1;
      assert metas[..n][..m] == metas[..m];
      assert calls[..n][..m] == calls[..m];
      PlanFailedPrefix(row0, metas[..n], calls[..n], m);
    } else {
      assert metas[..m] == metas && calls[..m] == calls;
    }
  }

  /**
   * Without a failure, every cascade call succeeded, and the last cascade
   * descriptor of a key leaves that key holding its call's result.
   */
  lemma {:induction false} CascadeWritesResult(row0: Row, metas: seq<Metadata>, calls: seq<Cascade>, i: nat)
    requires |calls| == |metas| && i < |metas| && metas[i].cascade
    requires forall j :: i < j < |metas| && metas[j].cascade ==> metas[j].propertyKey != metas[i].propertyKey
    requires !Plan(row0, metas, calls).failed
    ensures calls[i].result == Ok(Get(Plan(row0, metas, calls).row, metas[i].propertyKey))
    decreases |metas|
  {
    var n := |metas| - 1;
    if i < n {
      assert metas[..n][i] == metas[i] && calls[..n][i] == calls[i];
      assert forall j :: i < j < n ==> metas[..n][j] == metas[j];
      PlanFailedPrefix(row0, metas, calls, n);
      CascadeWritesResult(row0, metas[..n], calls[..n], i);
    }
  }

  /** How `savePolymorphs` ends: it settles with the saves issued, or never settles. */
  datatype CascadeOutcome = Settled(saves: seq<Value>) | NeverSettles(saves: seq<Value>)

  /**
   * `savePolymorphs(entity, options)`: every cascade descriptor's call reads
   * the entity as it was on entry; when all of them succeed each result is
   * written back onto the entity in descriptor order. A failing call rejects
   * inside an `async` executor that then never resolves, so the whole call
   * never settles and nothing is written back.
   */
  method SavePolymorphs(env: Env, entity: Entity, metas: seq<Metadata>, targetName: string) returns (o: CascadeOutcome)
    modifies entity
    ensures var p := Plan(old(entity.fields), metas, CascadeCalls(env, old(entity.fields), metas, targetName));
            o == (if p.failed then NeverSettles(p.saves) else Settled(p.saves))
            && entity.fields == (if p.failed then old(entity.fields) else p.row)
  {
    var calls: seq<Cascade> := [];
    var i := 0;
    while i < |metas|
      invariant 0 <= i <= |metas| && |calls| == i
      invariant forall k :: 0 <= k < i ==> calls[k] == CallFor(env, entity.fields, metas[k], targetName)
    {
      calls := calls + [CallFor(env, entity.fields, metas[i], targetName)];
      i := i + 1;
    }
    assert calls == CascadeCalls(env, entity.fields, metas, targetName);
    o := WriteBack(entity, metas, calls);
  }

  /** The settling of the calls and the `results.forEach(...)` write-back. */
  method WriteBack(entity: Entity, metas: seq<Metadata>, calls: seq<Cascade>) returns (o: CascadeOutcome)
    requires |calls| == |metas|
    modifies entity
    ensures var p := Plan(old(entity.fields), metas, calls);
            o == (if p.failed then NeverSettles(p.saves) else Settled(p.saves))
            && entity.fields == (if p.failed then old(entity.fields) else p.row)
  {
    ghost var row0 := entity.fields;
    var saves: seq<Value> := [];
    var failed := false;
    var i := 0;
    while i < |metas|
      invariant 0 <= i <= |metas|
      invariant saves == Plan(row0, metas[..i], calls[..i]).saves
      invariant failed == Plan(row0, metas[..i], calls[..i]).failed
    {
      assert metas[..i + 1][..i] == metas[..i] && calls[..i + 1][..i] == calls[..i];
      if metas[i].cascade {
        saves := saves + calls[i].saves;
        failed := failed || calls[i].result.Err?;
      }
      i := i + 1;
    }
    assert metas[..i] == metas && calls[..i] == calls;
    if failed {
      return NeverSettles(saves);
    }
    var j := 0;
    while j < |metas|
      invariant 0 <= j <= |metas|
      invariant entity.fields == Plan(row0, metas[..j], calls[..j]).row
    {
      assert metas[..j + 1][..j] == metas[..j] && calls[..j + 1][..j] == calls[..j];
      PlanFailedPrefix(row0, metas, calls, j + 1);
      if metas[j].cascade {
        entity.fields := entity.fields[metas[j].propertyKey := calls[j].result.value];
      }
      j := j + 1;
    }
    assert metas[..j] == metas && calls[..j] == calls;
    o := Settled(saves);
  }
}
