/**
 * Writing in the current revision: the foreign-key stamping of `save` (the
 * older revision's `save` stamps identically), the delete requests `save`
 * issues before delegating, and the copy-through of `create`.
 */
module Persistence {
  import opened Wrappers
  import opened JsValues
  import opened Seqs
  import opened Errors
  import opened PolymorphicInterface
  import opened Columns
  import opened Locator
  import opened Entities
  import opened Decorators
  import opened PolymorphicMetadata

  /**
   * One parent descriptor's stamp on one entity: an entity holding a truthy
   * parent and no id (`=== undefined`) gets the parent's primary key in its
   * id column and the parent's class name in its type column; any other
   * entity is left as it is.
   */
  function StampOne(className: ClassToken -> string, row: Row, m: Metadata): (r: Row)
    ensures !Truthy(Get(row, m.propertyKey)) || Get(row, EntityIdColumn(m)) != Undefined ==> r == row
    ensures Truthy(Get(row, m.propertyKey)) && Get(row, EntityIdColumn(m)) == Undefined ==>
              var parent := Get(row, m.propertyKey);
              Get(r, EntityTypeColumn(m)) == Str(ConstructorName(className, parent).value)
              && (EntityIdColumn(m) != EntityTypeColumn(m) ==> Get(r, EntityIdColumn(m)) == Prop(parent, PrimaryColumn(m)).value)
              && forall k :: k != EntityIdColumn(m) && k != EntityTypeColumn(m) ==> Get(r, k) == Get(row, k)
  {
    var parent := Get(row, m.propertyKey);
    if !Truthy(parent) || Get(row, EntityIdColumn(m)) != Undefined then row
    else
      row[EntityIdColumn(m) := Prop(parent, PrimaryColumn(m)).value]
         [EntityTypeColumn(m) := Str(ConstructorName(className, parent).value)]
  }

  /** The stamping pass of one descriptor over one row: only parents stamp. */
  function StampBy(className: ClassToken -> string, row: Row, m: Metadata): Row
  {
    if IsParent(m) then StampOne(className, row, m) else row
  }

  /** A row stamped by each descriptor in turn. */
  function StampRow(className: ClassToken -> string, row: Row, metas: seq<Metadata>): Row
    decreases |metas|
  {
    if metas == [] then row
    else StampBy(className, StampRow(className, row, metas[..|metas| - 1]), metas[|metas| - 1])
  }

  /** Children descriptors never stamp. */
  lemma {:induction false} ChildrenNeverStamp(className: ClassToken -> string, row: Row, metas: seq<Metadata>)
    requires forall i :: 0 <= i < |metas| ==> IsChildren(metas[i])
    ensures StampRow(className, row, metas) == row
    decreases |metas|
  {
    if metas != [] {
      ChildrenNeverStamp(className, row, metas[..|metas| - 1]);
    }
  }

  /**
   * Stamping never overwrites a set id: a row whose id columns are all
   * defined, for every parent descriptor, comes out unchanged.
   */
  lemma {:induction false} DefinedIdsKept(className: ClassToken -> string, row: Row, metas: seq<Metadata>)
    requires forall i :: 0 <= i < |metas| && IsParent(metas[i]) ==> Get(row, EntityIdColumn(metas[i])) != Undefined
    ensures StampRow(className, row, metas) == row
    decreases |metas|
  {
    if metas != [] {
      DefinedIdsKept(className, row, metas[..|metas| - 1]);
    }
  }

  /** The stamping step of one descriptor as a rewrite that never throws. */
  function StampStep(className: ClassToken -> string, m: Metadata): Row -> Step
  {
    row => Step(StampBy(className, row, m), None)
  }

  /**
   * The `metadata.map(...)` of `save`: for each descriptor in turn, a pass
   * over the entities in list order.
   */
  function StampAll(st: map<Entity, Row>, entities: seq<Entity>, metas: seq<Metadata>, className: ClassToken -> string): map<Entity, Row>
    decreases |metas|
  {
    if metas == [] then st
    else
      var n := |metas| - 1;
      Run(StampAll(st, entities, metas[..n], className), entities, StampStep(className, metas[n])).rows
  }

  /** A stamping pass never fails. */
  lemma {:induction false} StampRunClean(st: map<Entity, Row>, entities: seq<Entity>, className: ClassToken -> string, m: Metadata)
    ensures Run(st, entities, StampStep(className, m)).error.None?
    decreases |entities|
  {
    if entities != [] {
      StampRunClean(st, entities[..|entities| - 1], className, m);
    }
  }

  /** Without repeated entity objects, each entity ends up as its own row stamped by every descriptor. */
  lemma {:induction false} StampAllDistinct(st: map<Entity, Row>, entities: seq<Entity>, metas: seq<Metadata>,
                                            className: ClassToken -> string)
    requires NoDup(entities)
    ensures forall k :: 0 <= k < |entities| ==>
              RowOf(StampAll(st, entities, metas, className), entities[k]) == StampRow(className, RowOf(st, entities[k]), metas)
    decreases |metas|
  {
    if metas != [] {
      var n := |metas| - 1;
      StampAllDistinct(st, entities, metas[..n], className);
      RunClean(StampAll(st, entities, metas[..n], className), entities, StampStep(className, metas[n]));
    }
  }

  /** One descriptor's pass: each entity in list order stamped in place. */
  method StampPass(className: ClassToken -> string, entities: seq<Entity>, m: Metadata)
    modifies set e | e in entities
    ensures forall k :: 0 <= k < |entities| ==>
              entities[k].fields == RowOf(Run(old(Snapshot(entities)), entities, StampStep(className, m)).rows, entities[k])
  {
    ghost var st := Snapshot(entities);
    var j := 0;
    while j < |entities|
      invariant 0 <= j <= |entities|
      invariant forall k :: 0 <= k < |entities| ==>
                  entities[k].fields == RowOf(Run(st, entities[..j], StampStep(className, m)).rows, entities[k])
    {
      StampRunClean(st, entities[..j], className, m);
      assert entities[..j + 1][..j] == entities[..j];
      var e := entities[j];
      e.fields := StampBy(className, e.fields, m);
      j := j + 1;
    }
    assert entities[..j] == entities;
  }

  /**
   * The stamping part of `save`: for every parent descriptor, the entities
   * are stamped in place, in descriptor-major order.
   */
  method StampParents(className: ClassToken -> string, entities: seq<Entity>, metas: seq<Metadata>)
    modifies set e | e in entities
    ensures forall k :: 0 <= k < |entities| ==>
              entities[k].fields == RowOf(StampAll(old(Snapshot(entities)), entities, metas, className), entities[k])
  {
    ghost var st := Snapshot(entities);
    var i := 0;
    while i < |metas|
      invariant 0 <= i <= |metas|
      invariant forall k :: 0 <= k < |entities| ==>
                  entities[k].fields == RowOf(StampAll(st, entities, metas[..i], className), entities[k])
    {
      if IsParent(metas[i]) {
        ghost var cur := Snapshot(entities);
        StampPass(className, entities, metas[i]);
        RunAgree(cur, StampAll(st, entities, metas[..i], className), entities, StampStep(className, metas[i]));
      } else {
        ChildrenPassIsIdentity(StampAll(st, entities, metas[..i], className), entities, className, metas[i]);
      }
      assert metas[..i + 1][..i] == metas[..i];
      i := i + 1;
    }
    assert metas[..i] == metas;
  }

  /** A children descriptor's pass leaves every row as it was. */
  lemma {:induction false} ChildrenPassIsIdentity(st: map<Entity, Row>, entities: seq<Entity>,
                                                  className: ClassToken -> string, m: Metadata)
    requires IsChildren(m)
    ensures forall k :: 0 <= k < |entities| ==>
              RowOf(Run(st, entities, StampStep(className, m)).rows, entities[k]) == RowOf(st, entities[k])
    decreases |entities|
  {
    if entities != [] {
      var n := |entities| - 1;
      ChildrenPassIsIdentity(st, entities[..n], className, m);
      StampRunClean(st, entities[..n], className, m);
      forall k | 0 <= k < |entities|
        ensures RowOf(Run(st, entities, StampStep(className, m)).rows, entities[k]) == RowOf(st, entities[k])
      {
        if k < n {
          assert entities[k] == entities[..n][k];
        }
        if entities[k] !in entities[..n] {
          RunFrame(st, entities[..n], StampStep(className, m), entities[k]);
        }
      }
    }
  }

  /** One `repository.delete(criteria)` call. */
  datatype DeleteCall = DeleteCall(repo: Repo, criteria: Criteria)

  /**
   * The criteria of one delete: the type column equal to the declared type
   * and the id column equal to the entity's own primary key; the id column
   * wins when both have the same name.
   */
  function DeleteCriteria(typeColumn: string, idColumn: string, id: Value, entityType: Value): (c: Criteria)
    ensures c.Keys == {typeColumn, idColumn}
    ensures c[idColumn] == Equals(id)
    ensures typeColumn != idColumn ==> c[typeColumn] == Equals(entityType)
  {
    map[typeColumn := Equals(entityType)][idColumn := Equals(id)]
  }

  /** The repository lookup of each declared type, in order. */
  function RepoLookups(env: Env, types: seq<Value>): (rs: seq<Result<Repo, Error>>)
    ensures |rs| == |types|
    ensures forall i :: 0 <= i < |types| ==> rs[i] == FindRepository(env, types[i])
  {
    seq(|types|, i requires 0 <= i < |types| => FindRepository(env, types[i]))
  }

  /**
   * The deletes one descriptor's executor issues for one entity: one per
   * declared type, in order, until a type whose repository lookup failed;
   * that lookup's exception ends the executor.
   */
  function TypeDeletes(types: seq<Value>, repos: seq<Result<Repo, Error>>, typeColumn: string, idColumn: string, id: Value)
    : (r: (seq<DeleteCall>, Option<Error>))
    requires |repos| == |types|
    ensures |r.0| <= |types|
    ensures forall i :: 0 <= i < |r.0| ==>
              repos[i].Ok? && r.0[i] == DeleteCall(repos[i].value, DeleteCriteria(typeColumn, idColumn, id, types[i]))
    ensures r.1.None? <==> forall i :: 0 <= i < |types| ==> repos[i].Ok?
    ensures r.1.None? ==> |r.0| == |types|
    ensures r.1.Some? ==> |r.0| < |types| && repos[|r.0|] == Err(r.1.value)
    decreases |types|
  {
    if types == [] then ([], None)
    else if repos[0].Err? then ([], Some(repos[0].error))
    else
      var rest := TypeDeletes(types[1..], repos[1..], typeColumn, idColumn, id);
      assert forall i :: 1 <= i < |types| ==> types[i] == types[1..][i - 1] && repos[i] == repos[1..][i - 1];
      ([DeleteCall(repos[0].value, DeleteCriteria(typeColumn, idColumn, id, types[0]))] + rest.0, rest.1)
  }

  /**
   * One descriptor's executor for one entity: the deletes it issues, and the
   * exception it rejects with. The deletes are issued whatever
   * `deleteBeforeUpdate` says; a missing repository rejects only with
   * `deleteBeforeUpdate`, because otherwise the executor has already resolved.
   */
  function OptionDeletes(env: Env, row: Row, m: Metadata): (r: (seq<DeleteCall>, Option<Error>))
  {
    var types := ClassTypes(m);
    var calls := TypeDeletes(types, RepoLookups(env, types), EntityTypeColumn(m), EntityIdColumn(m), Get(row, PrimaryColumn(m)));
    (calls.0, if m.deleteBeforeUpdate then calls.1 else None)
  }

  /** The first of two errors. */
  function FirstError(a: Option<Error>, b: Option<Error>): Option<Error>
  {
    if a.Some? then a else b
  }

  /** `deletePolymorphs(entity, metadata)`: every descriptor's executor in order. */
  function EntityDeletes(env: Env, row: Row, metas: seq<Metadata>): (r: (seq<DeleteCall>, Option<Error>))
    decreases |metas|
  {
    if metas == [] then ([], None)
    else
      var n := |metas| - 1;
      var prev := EntityDeletes(env, row, metas[..n]);
      var last := OptionDeletes(env, row, metas[n]);
      (prev.0 + last.0, FirstError(prev.1, last.1))
  }

  /**
   * The deletes of `save` for every entity in turn, and the exception of the
   * first entity (in list order) whose deletes rejected.
   */
  function DeletePlan(env: Env, rows: seq<Row>, metas: seq<Metadata>): (r: (seq<DeleteCall>, Option<Error>))
    decreases |rows|
  {
    if rows == [] then ([], None)
    else
      var n := |rows| - 1;
      var prev := DeletePlan(env, rows[..n], metas);
      var last := EntityDeletes(env, rows[n], metas);
      (prev.0 + last.0, FirstError(prev.1, last.1))
  }

  /** The descriptors with `deleteBeforeUpdate` switched off. */
  function FlagsOff(metas: seq<Metadata>): (ms: seq<Metadata>)
    ensures |ms| == |metas|
    ensures forall i :: 0 <= i < |metas| ==> ms[i] == metas[i].(deleteBeforeUpdate := false)
  {
    seq(|metas|, i requires 0 <= i < |metas| => metas[i].(deleteBeforeUpdate := false))
  }

  /** Switching the flag off changes no column name, no class type, and so no delete. */
  lemma OptionDeletesIgnoreFlag(env: Env, row: Row, m: Metadata)
    ensures OptionDeletes(env, row, m.(deleteBeforeUpdate := false)).0 == OptionDeletes(env, row, m).0
    ensures OptionDeletes(env, row, m.(deleteBeforeUpdate := false)).1.None?
  {
    var m' := m.(deleteBeforeUpdate := false);
    assert EntityTypeColumn(m') == EntityTypeColumn(m) && EntityIdColumn(m') == EntityIdColumn(m);
    assert PrimaryColumn(m') == PrimaryColumn(m) && ClassTypes(m') == ClassTypes(m);
  }

  /** `DeletesIgnoreFlag` for one entity. */
  lemma {:induction false} EntityDeletesIgnoreFlag(env: Env, row: Row, metas: seq<Metadata>)
    ensures EntityDeletes(env, row, FlagsOff(metas)).0 == EntityDeletes(env, row, metas).0
    ensures EntityDeletes(env, row, FlagsOff(metas)).1.None?
    decreases |metas|
  {
    if metas != [] {
      var n := |metas| - 1;
      var off := FlagsOff(metas);
      assert off[..n] == FlagsOff(metas[..n]);
      assert off[n] == metas[n].(deleteBeforeUpdate := false);
      EntityDeletesIgnoreFlag(env, row, metas[..n]);
      OptionDeletesIgnoreFlag(env, row, metas[n]);
      assert EntityDeletes(env, row, off)
             == (EntityDeletes(env, row, off[..n]).0 + OptionDeletes(env, row, off[n]).0,
                 FirstError(EntityDeletes(env, row, off[..n]).1, OptionDeletes(env, row, off[n]).1));
    }
  }

  /**
   * `deleteBeforeUpdate` decides whether a missing repository rejects the
   * save, not which deletes are issued: with every flag off the same deletes
   * go out and nothing rejects.
   */
  lemma {:induction false} DeletesIgnoreFlag(env: Env, rows: seq<Row>, metas: seq<Metadata>)
    ensures DeletePlan(env, rows, FlagsOff(metas)).0 == DeletePlan(env, rows, metas).0
    ensures DeletePlan(env, rows, FlagsOff(metas)).1.None?
    decreases |rows|
  {
    if rows != [] {
      var n := |rows| - 1;
      DeletesIgnoreFlag(env, rows[..n], metas);
      EntityDeletesIgnoreFlag(env, rows[n], metas);
    }
  }

  /**
   * What `save` does before delegating: `Delegated` lists the deletes issued
   * and means the (stamped) entities were handed to the ORM's `save`;
   * `Rejected` is the exception the call rejects with, after the deletes
   * already issued.
   */
  datatype SaveOutcome = Delegated(deletes: seq<DeleteCall>) | Rejected(deletes: seq<DeleteCall>, error: Error)

  /**
   * `save(entityOrEntities)` in the current revision. A class with no
   * polymorphic property passes straight through; otherwise the descriptors
   * are read, the entities stamped in place, the deletes issued from the
   * stamped rows, and the save delegated unless a delete rejected.
   */
  method Save(env: Env, bag: MetadataBag, entities: seq<Entity>) returns (o: SaveOutcome)
    modifies set e | e in entities
    ensures !IsPolymorph(bag) ==> o == Delegated([]) && forall k :: 0 <= k < |entities| ==> entities[k].fields == old(entities[k].fields)
    ensures IsPolymorph(bag) && GetPolymorphicMetadata(bag).Err? ==>
              o == Rejected([], GetPolymorphicMetadata(bag).error) && forall k :: 0 <= k < |entities| ==> entities[k].fields == old(entities[k].fields)
    ensures IsPolymorph(bag) && GetPolymorphicMetadata(bag).Ok? ==>
              var metas := GetPolymorphicMetadata(bag).value;
              (forall k :: 0 <= k < |entities| ==>
                 entities[k].fields == RowOf(StampAll(old(Snapshot(entities)), entities, metas, env.className), entities[k]))
              && var plan := DeletePlan(env, Rows(entities), metas);
                 o == (if plan.1.None? then Delegated(plan.0) else Rejected(plan.0, plan.1.value))
  {
    if !IsPolymorph(bag) {
      return Delegated([]);
    }
    var metas := GetPolymorphicMetadata(bag);
    if metas.Err? {
      return Rejected([], metas.error);
    }
    StampParents(env.className, entities, metas.value);
    var plan := DeletePlan(env, Rows(entities), metas.value);
    o := if plan.1.None? then Delegated(plan.0) else Rejected(plan.0, plan.1.value);
  }

  /** A missing `create` input: `undefined` or `null`. */
  predicate Missing(plain: Value)
  {
    plain.Undefined? || plain.Null?
  }

  /** The descriptors' properties copied from `plain` onto `row`, in descriptor order. */
  function CopyThrough(row: Row, plain: Value, metas: seq<Metadata>): Row
    requires metas != [] ==> !Missing(plain)
    decreases |metas|
  {
    if metas == [] then row
    else
      var n := |metas| - 1;
      CopyThrough(row, plain, metas[..n])[metas[n].propertyKey := Prop(plain, metas[n].propertyKey).value]
  }

  /**
   * Each descriptor's property holds the input's value of that property
   * verbatim; every other property keeps what the ORM's `create` gave it.
   */
  lemma {:induction false} CopyThroughValues(row: Row, plain: Value, metas: seq<Metadata>, k: string)
    requires !Missing(plain)
    ensures (exists i :: 0 <= i < |metas| && metas[i].propertyKey == k) ==>
              Get(CopyThrough(row, plain, metas), k) == Prop(plain, k).value
    ensures (forall i :: 0 <= i < |metas| ==> metas[i].propertyKey != k) ==>
              Get(CopyThrough(row, plain, metas), k) == Get(row, k)
    decreases |metas|
  {
    if metas != [] {
      var n := |metas| - 1;
      CopyThroughValues(row, plain, metas[..n], k);
      if metas[n].propertyKey != k && exists i :: 0 <= i < |metas| && metas[i].propertyKey == k {
        var i :| 0 <= i < |metas| && metas[i].propertyKey == k;
        assert metas[..n][i].propertyKey == k by {
          assert i < n;
        }
      }
    }
  }

  /**
   * The `forEach` of `create`: each descriptor's property read from `plain`
   * and written onto `entity`. Reading a property of a missing input throws
   * before anything is written.
   */
  method CopyProperties(plain: Value, metas: seq<Metadata>, entity: Entity) returns (error: Option<Error>)
    modifies entity
    ensures metas != [] && Missing(plain) ==> error.Some? && error.value.TypeError? && entity.fields == old(entity.fields)
    ensures metas == [] || !Missing(plain) ==> error.None? && entity.fields == CopyThrough(old(entity.fields), plain, metas)
  {
    var i := 0;
    while i < |metas|
      invariant 0 <= i <= |metas|
      invariant i > 0 ==> !Missing(plain)
      invariant i == 0 ==> entity.fields == old(entity.fields)
      invariant entity.fields == CopyThrough(old(entity.fields), plain, metas[..i])
    {
      var v := Prop(plain, metas[i].propertyKey);
      if v.None? {
        return Some(TypeError(if plain.Undefined? then "Cannot read properties of undefined"
                              else "Cannot read properties of null"));
      }
      assert metas[..i + 1][..i] == metas[..i];
      entity.fields := entity.fields[metas[i].propertyKey := v.value];
      i := i + 1;
    }
    assert metas[..i] == metas;
    return None;
  }

  /**
   * `create(plain)` for one input: the descriptors are read first (a faulty
   * key throws before the ORM creates anything), the ORM's `create` gave
   * `entity`, then each descriptor's property is copied from `plain`.
   */
  method Create(bag: MetadataBag, rev: Revision, plain: Value, entity: Entity) returns (r: Result<Entity, Error>)
    modifies entity
    ensures var metas := Collect(bag, bag.keys, rev);
            (metas.Err? ==> r == Err(metas.error) && entity.fields == old(entity.fields))
            && (metas.Ok? && metas.value != [] && Missing(plain) ==> r.Err? && entity.fields == old(entity.fields))
            && (metas.Ok? && (metas.value == [] || !Missing(plain)) ==>
                  r == Ok(entity) && entity.fields == CopyThrough(old(entity.fields), plain, metas.value))
  {
    var metas := Collect(bag, bag.keys, rev);
    if metas.Err? {
      return Err(metas.error);
    }
    var error := CopyProperties(plain, metas.value, entity);
    r := if error.Some? then Err(error.value) else Ok(entity);
  }
}
