/**
 * Hydration in the current revision (`hydrateMany`, `hydrateOne`,
 * `hydratePolymorphs`, `hydrateEntities`): for every descriptor, query every
 * target type, key the results by `type:id`, then write onto each owning
 * entity the results its own `entityType:entityId` selects.
 */
module Hydration {
  import opened Wrappers
  import opened JsValues
  import opened Seqs
  import opened Errors
  import opened PolymorphicInterface
  import opened Columns
  import opened Locator
  import opened Queries
  import opened Grouping
  import opened Entities
  import opened Decorators
  import opened PolymorphicMetadata

  /** `PolymorphicHydrationType`: one descriptor's results, grouped by key. */
  datatype Hydration = Hydration(key: string, kind: Direction, hasMany: bool, valueKeyMap: map<string, seq<Value>>)

  /**
   * The target types one descriptor queries: for a parent, the distinct
   * values of the owning rows' type column in first-seen order; for
   * children, the declared class types.
   */
  function TargetTypes(rows: seq<Row>, m: Metadata): (types: seq<Value>)
    ensures IsParent(m) ==> NoDup(types)
    ensures IsParent(m) ==> forall v :: v in types <==> exists i :: 0 <= i < |rows| && Get(rows[i], EntityTypeColumn(m)) == v
    ensures IsParent(m) ==> forall i, j :: 0 <= i < j < |types| ==>
              var column := Column(rows, EntityTypeColumn(m));
              types[i] in column && types[j] in column && FirstIndex(column, types[i]) < FirstIndex(column, types[j])
    ensures IsChildren(m) ==> types == ClassTypes(m)
  {
    if IsParent(m) then
      var column := Column(rows, EntityTypeColumn(m));
      assert forall v :: v in column <==> exists i :: 0 <= i < |rows| && Get(rows[i], EntityTypeColumn(m)) == v by {
        forall v | v in column ensures exists i :: 0 <= i < |rows| && Get(rows[i], EntityTypeColumn(m)) == v {
          var i :| 0 <= i < |column| && column[i] == v;
        }
      }
      Distinct(column)
    else ClassTypes(m)
  }

  /** `Promise.all(entityTypes.map(type => this.findPolymorphs(...)))`: one result per target type. */
  function Lookups(env: Env, rows: seq<Row>, m: Metadata): (r: Result<seq<Value>, Error>)
    ensures var types := TargetTypes(rows, m);
            (r.Ok? <==> forall i :: 0 <= i < |types| ==> FindPolymorphs(env, rows, types[i], m).Ok?)
            && (r.Ok? ==> |r.value| == |types|
                          && forall i :: 0 <= i < |types| ==> r.value[i] == FindPolymorphs(env, rows, types[i], m).value)
            && (r.Err? ==> exists i :: 0 <= i < |types| && FindPolymorphs(env, rows, types[i], m) == Err(r.error))
  {
    var types := TargetTypes(rows, m);
    MapAll(types, t => FindPolymorphs(env, rows, t, m))
  }

  /**
   * The key one flattened result is grouped under; an array result is keyed
   * by its first element. A parent is keyed `Class:primary`, a child
   * `type:id` from its own columns; a `null`/`undefined` result (a `findOne`
   * that found nothing, an empty array) throws.
   */
  function KeyOf(env: Env, m: Metadata, v: Value): (r: Result<string, Error>)
    ensures var head := if v.Arr? then Head(v) else v;
            (r.Err? <==> head.Undefined? || head.Null?)
            && (head.Obj? && IsParent(m) ==>
                  r == Ok(env.className(head.cls) + ":" + ToStr(env.classText, Get(head.fields, PrimaryColumn(m)))))
            && (head.Obj? && IsChildren(m) ==>
                  r == Ok(ToStr(env.classText, Get(head.fields, EntityTypeColumn(m))) + ":"
                          + ToStr(env.classText, Get(head.fields, EntityIdColumn(m)))))
  {
    var head := if v.Arr? then Head(v) else v;
    if IsParent(m) then
      var primary := Prop(head, PrimaryColumn(m));
      var name := ConstructorName(env.className, head);
      if primary.None? || name.None? then Err(TypeError("Cannot read properties of " + ToStr(env.classText, head)))
      else Ok(name.value + ":" + ToStr(env.classText, primary.value))
    else
      var id := Prop(head, EntityIdColumn(m));
      var ty := Prop(head, EntityTypeColumn(m));
      if id.None? || ty.None? then Err(TypeError("Cannot read properties of " + ToStr(env.classText, head)))
      else Ok(ToStr(env.classText, ty.value) + ":" + ToStr(env.classText, id.value))
  }

  /** The keys of a list of results, the first failure ending it. */
  function KeysOf(env: Env, m: Metadata, flat: seq<Value>): (r: Result<seq<string>, Error>)
    ensures (r.Ok? <==> forall i :: 0 <= i < |flat| ==> KeyOf(env, m, flat[i]).Ok?)
    ensures r.Ok? ==> |r.value| == |flat| && forall i :: 0 <= i < |flat| ==> r.value[i] == KeyOf(env, m, flat[i]).value
    ensures r.Err? ==> exists i :: 0 <= i < |flat| && KeyOf(env, m, flat[i]) == Err(r.error)
                                 && forall j :: 0 <= j < i ==> KeyOf(env, m, flat[j]).Ok?
  {
    MapAll(flat, v => KeyOf(env, m, v))
  }

  /**
   * `hydrateEntities(entities, option)` as a value: the lookups' results,
   * flattened one level, grouped by their keys, in result order.
   */
  function HydrationOf(env: Env, rows: seq<Row>, m: Metadata): Result<Hydration, Error>
  {
    var results :- Lookups(env, rows, m);
    var flat := Spread(results);
    var keys :- KeysOf(env, m, flat);
    Ok(Hydration(m.propertyKey, m.kind, m.hasMany, Group(flat, keys)))
  }

  /**
   * The grouping of a hydration partitions the flattened results: every
   * result sits in the bucket of its own key, each bucket holds exactly the
   * results with that key in result order, and the buckets' sizes add up to
   * the number of results.
   */
  lemma HydrationPartition(env: Env, rows: seq<Row>, m: Metadata)
    requires HydrationOf(env, rows, m).Ok?
    ensures var flat := Spread(Lookups(env, rows, m).value);
            var keys := KeysOf(env, m, flat).value;
            var g := HydrationOf(env, rows, m).value.valueKeyMap;
            (forall k :: k in g <==> k in keys)
            && (forall i :: 0 <= i < |flat| ==> keys[i] in g && flat[i] in g[keys[i]])
            && (forall k :: k in g ==> g[k] == Select(flat, Positions(keys, k)))
            && Sizes(keys, Distinct(keys)) == |flat|
  {
    var flat := Spread(Lookups(env, rows, m).value);
    var keys := KeysOf(env, m, flat).value;
    GroupSpec(flat, keys);
    forall i | 0 <= i < |flat| ensures keys[i] in Group(flat, keys) && flat[i] in Group(flat, keys)[keys[i]] {
      GroupPartition(flat, keys, i, keys[i]);
    }
    GroupSizes(keys);
  }

  /** The first `reduce` of `hydrateEntities`: `acc.push(...val)` for an array, `acc.push(val)` otherwise. */
  method Flatten(results: seq<Value>) returns (flat: seq<Value>)
    ensures flat == Spread(results)
  {
    flat := [];
    var i := 0;
    while i < |results|
      invariant 0 <= i <= |results|
      invariant flat == Spread(results[..i])
    {
      if results[i].Arr? {
        flat := flat + results[i].elems;
      } else {
        flat := flat + [results[i]];
      }
      assert results[..i + 1][..i] == results[..i];
      i := i + 1;
    }
    assert results[..i] == results;
  }

  /** `hydrateEntities(entities, option)`: the lookups, then the two `reduce` passes. */
  method HydrateEntities(env: Env, rows: seq<Row>, m: Metadata) returns (r: Result<Hydration, Error>)
    ensures r == HydrationOf(env, rows, m)
  {
    var results :- Lookups(env, rows, m);
    var flat := Flatten(results);
    var valueKeyMap :- GroupBy(flat, v => KeyOf(env, m, v));
    r := Ok(Hydration(m.propertyKey, m.kind, m.hasMany, valueKeyMap));
  }

  /** `Promise.all(options.map(option => this.hydrateEntities(entities, option)))`. */
  function Hydrations(env: Env, rows: seq<Row>, metas: seq<Metadata>): (r: Result<seq<Hydration>, Error>)
    ensures (r.Ok? <==> forall i :: 0 <= i < |metas| ==> HydrationOf(env, rows, metas[i]).Ok?)
    ensures r.Ok? ==> |r.value| == |metas| && forall i :: 0 <= i < |metas| ==> r.value[i] == HydrationOf(env, rows, metas[i]).value
    ensures r.Err? ==> exists i :: 0 <= i < |metas| && HydrationOf(env, rows, metas[i]) == Err(r.error)
                                 && forall j :: 0 <= j < i ==> HydrationOf(env, rows, metas[j]).Ok?
  {
    MapAll(metas, m => HydrationOf(env, rows, m))
  }

  /** `${e.entityType}:${e.entityId}`: the owning row's key, from fixed property names. */
  function PolyKey(classText: ClassToken -> string, row: Row): string
  {
    ToStr(classText, Get(row, "entityType")) + ":" + ToStr(classText, Get(row, "entityId"))
  }

  /**
   * What one hydration assigns for a key: the whole bucket for a to-many
   * descriptor (`undefined` when there is none), otherwise the bucket's first
   * result. `None` is the TypeError of indexing a missing bucket.
   */
  function Assigned(h: Hydration, key: string): (r: Option<Value>)
    ensures h.hasMany ==> r == Some(if key in h.valueKeyMap then Arr(h.valueKeyMap[key]) else Undefined)
    ensures !h.hasMany ==> (r.Some? <==> key in h.valueKeyMap)
    ensures !h.hasMany && key in h.valueKeyMap && |h.valueKeyMap[key]| > 0 ==> r == Some(h.valueKeyMap[key][0])
  {
    if h.hasMany then Some(if key in h.valueKeyMap then Arr(h.valueKeyMap[key]) else Undefined)
    else if key !in h.valueKeyMap then None
    else if |h.valueKeyMap[key]| == 0 then Some(Undefined)
    else Some(h.valueKeyMap[key][0])
  }

  /** One step of the per-entity `reduce`: `e[vals.key] = polys`. */
  function HydrateStep(classText: ClassToken -> string, row: Row, h: Hydration): (s: Step)
    ensures var a := Assigned(h, PolyKey(classText, row));
            (s.error.None? <==> a.Some?)
            && (a.Some? ==> s.row == row[h.key := a.value])
            && (a.None? ==> s.row == row)
  {
    var a := Assigned(h, PolyKey(classText, row));
    if a.None? then Step(row, Some(TypeError("Cannot read properties of undefined (reading '0')")))
    else Step(row[h.key := a.value], None)
  }

  /** The per-entity `reduce` over all hydrations. */
  function HydrateRow(classText: ClassToken -> string, row: Row, hs: seq<Hydration>): Step
  {
    Chain(row, hs, (r, h) => HydrateStep(classText, r, h))
  }

  /** Hydrating a row sets no property other than the descriptors' own. */
  lemma {:induction false} HydrateRowFrame(classText: ClassToken -> string, row: Row, hs: seq<Hydration>, k: string)
    requires forall i :: 0 <= i < |hs| ==> hs[i].key != k
    ensures Get(HydrateRow(classText, row, hs).row, k) == Get(row, k)
    decreases |hs|
  {
    if hs != [] {
      HydrateRowFrame(classText, row, hs[..|hs| - 1], k);
    }
  }

  /**
   * When the descriptors' properties are distinct and none of them is
   * `entityType` or `entityId`, every step reads the row's original key:
   * hydrating succeeds exactly when every hydration can answer that key, and
   * then each property holds that hydration's answer.
   */
  lemma {:induction false} HydrateRowAssigns(classText: ClassToken -> string, row: Row, hs: seq<Hydration>)
    requires forall i :: 0 <= i < |hs| ==> hs[i].key != "entityType" && hs[i].key != "entityId"
    requires forall i, j :: 0 <= i < j < |hs| ==> hs[i].key != hs[j].key
    ensures var s := HydrateRow(classText, row, hs);
            var key := PolyKey(classText, row);
            (s.error.None? <==> forall i :: 0 <= i < |hs| ==> Assigned(hs[i], key).Some?)
            && (s.error.None? ==> forall i :: 0 <= i < |hs| ==> Get(s.row, hs[i].key) == Assigned(hs[i], key).value)
    decreases |hs|
  {
    if hs != [] {
      var n := |hs| - 1;
      var init := hs[..n];
      HydrateRowAssigns(classText, row, init);
      var s := HydrateRow(classText, row, init);
      var key := PolyKey(classText, row);
      if s.error.None? {
        HydrateRowFrame(classText, row, init, "entityType");
        HydrateRowFrame(classText, row, init, "entityId");
        assert PolyKey(classText, s.row) == key;
      }
    }
  }

  /** `await Promise.all(options.map(option => this.hydrateEntities(entities, option)))`. */
  method HydrateAll(env: Env, rows: seq<Row>, metas: seq<Metadata>) returns (r: Result<seq<Hydration>, Error>)
    ensures r == Hydrations(env, rows, metas)
  {
    ghost var hydrate := m => HydrationOf(env, rows, m);
    var values: seq<Hydration> := [];
    var i := 0;
    while i < |metas|
      invariant 0 <= i <= |metas|
      invariant MapAll(metas[..i], hydrate) == Ok(values)
    {
      var h := HydrateEntities(env, rows, metas[i]);
      if h.Err? {
        MapAllPrefixErr(metas, hydrate, i, values);
        return Err(h.error);
      }
      MapAllSnoc(metas, hydrate, i, values);
      values := values + [h.value];
      i := i + 1;
    }
    assert metas[..i] == metas;
    r := Ok(values);
  }

  /**
   * The per-entity `values.reduce(...)`: each hydration in turn assigns its
   * property on the entity itself; the first missing bucket throws, leaving
   * the properties assigned so far.
   */
  method HydrateObject(classText: ClassToken -> string, e: Entity, values: seq<Hydration>) returns (error: Option<Error>)
    modifies e
    ensures e.fields == HydrateRow(classText, old(e.fields), values).row
    ensures error == HydrateRow(classText, old(e.fields), values).error
  {
    var j := 0;
    while j < |values|
      invariant 0 <= j <= |values|
      invariant HydrateRow(classText, old(e.fields), values[..j]).error.None?
      invariant e.fields == HydrateRow(classText, old(e.fields), values[..j]).row
    {
      var s := HydrateStep(classText, e.fields, values[j]);
      assert values[..j + 1][..j] == values[..j];
      e.fields := s.row;
      if s.error.Some? {
        ChainStops(old(e.fields), values, (r, h) => HydrateStep(classText, r, h), j + 1);
        return s.error;
      }
      j := j + 1;
    }
    assert values[..j] == values;
    error := None;
  }

  /**
   * The `for (let entity of entities)` pass: each entity, in list order, is
   * rewritten in place with the hydrations; the first TypeError ends the pass.
   * An entity listed twice is rewritten twice.
   */
  method HydrateInPlace(classText: ClassToken -> string, entities: seq<Entity>, values: seq<Hydration>)
      returns (r: Result<seq<Entity>, Error>)
    modifies set e | e in entities
    ensures var o := Run(old(Snapshot(entities)), entities, row => HydrateRow(classText, row, values));
            (r.Ok? <==> o.error.None?)
            && (r.Ok? ==> r.value == entities)
            && (r.Err? ==> o.error == Some(r.error))
            && forall i :: 0 <= i < |entities| ==> entities[i].fields == RowOf(o.rows, entities[i])
  {
    ghost var st := Snapshot(entities);
    ghost var f := row => HydrateRow(classText, row, values);
    var results: seq<Entity> := [];
    var i := 0;
    while i < |entities|
      invariant 0 <= i <= |entities| && results == entities[..i]
      invariant Run(st, entities[..i], f).error.None?
      invariant forall k :: 0 <= k < |entities| ==> entities[k].fields == RowOf(Run(st, entities[..i], f).rows, entities[k])
    {
      var e := entities[i];
      assert entities[..i + 1][..i] == entities[..i];
      var error := HydrateObject(classText, e, values);
      if error.Some? {
        RunStops(st, entities, f, i + 1);
        return Err(error.value);
      }
      results := results + [e];
      i := i + 1;
    }
    assert entities[..i] == entities;
    r := Ok(results);
  }

  /**
   * What `hydratePolymorphs(entities, metas)` leaves, from the rows `rows0`
   * and objects-to-rows map `st0` the entities had on entry. Every
   * descriptor's hydration is computed from the entry rows; a failing lookup
   * rejects before any entity is written. Otherwise the entities are
   * rewritten in place in list order, the first TypeError ending the pass,
   * and on success the same entity objects are returned.
   */
  ghost predicate HydratedAs(env: Env, metas: seq<Metadata>, entities: seq<Entity>, rows0: seq<Row>,
                             st0: map<Entity, Row>, r: Result<seq<Entity>, Error>)
    reads set e | e in entities
  {
    var vs := Hydrations(env, rows0, metas);
    if vs.Err? then
      r == Err(vs.error) && forall i :: 0 <= i < |entities| ==> entities[i].fields == RowOf(st0, entities[i])
    else
      var o := Run(st0, entities, row => HydrateRow(env.classText, row, vs.value));
      (r.Ok? <==> o.error.None?)
      && (r.Ok? ==> r.value == entities)
      && (r.Err? ==> o.error == Some(r.error))
      && forall i :: 0 <= i < |entities| ==> entities[i].fields == RowOf(o.rows, entities[i])
  }

  /** `hydratePolymorphs(entities, options)`. */
  method HydratePolymorphs(env: Env, entities: seq<Entity>, metas: seq<Metadata>) returns (r: Result<seq<Entity>, Error>)
    modifies set e | e in entities
    ensures HydratedAs(env, metas, entities, old(Rows(entities)), old(Snapshot(entities)), r)
  {
    var values :- HydrateAll(env, Rows(entities), metas);
    r := HydrateInPlace(env.classText, entities, values);
  }

  /** `hydrateMany(entities)`: hydrate with the descriptors read from the entity class's metadata. */
  method HydrateMany(env: Env, bag: MetadataBag, entities: seq<Entity>) returns (r: Result<seq<Entity>, Error>)
    modifies set e | e in entities
    ensures GetPolymorphicMetadata(bag).Err? ==>
              r == Err(GetPolymorphicMetadata(bag).error) && forall i :: 0 <= i < |entities| ==> unchanged(entities[i])
    ensures GetPolymorphicMetadata(bag).Ok? ==>
              HydratedAs(env, GetPolymorphicMetadata(bag).value, entities, old(Rows(entities)), old(Snapshot(entities)), r)
  {
    var metas :- GetPolymorphicMetadata(bag);
    r := HydratePolymorphs(env, entities, metas);
  }

  /**
   * What hydrating the single entity `e`, whose row was `row0`, leaves: the
   * per-entity `reduce` over the hydrations computed from `row0` alone. A
   * failing lookup rejects with the row untouched; otherwise `e` holds the
   * rewritten row, and the call answers `e` unless a step threw.
   */
  ghost predicate SingleHydratedAs(env: Env, metas: seq<Metadata>, e: Entity, row0: Row, r: Result<Entity, Error>)
    reads e
  {
    var vs := Hydrations(env, [row0], metas);
    (r.Ok? ==> r.value == e)
    && (vs.Err? ==> r == Err(vs.error) && e.fields == row0)
    && (vs.Ok? ==>
          var s := HydrateRow(env.classText, row0, vs.value);
          e.fields == s.row && (r.Ok? <==> s.error.None?) && (r.Err? ==> s.error == Some(r.error)))
  }

  /** Hydrating a single entity: `hydratePolymorphs([entity], metas)` and its one element. */
  method HydrateSingle(env: Env, entity: Entity, metas: seq<Metadata>) returns (r: Result<Entity, Error>)
    modifies entity
    ensures SingleHydratedAs(env, metas, entity, old(entity.fields), r)
  {
    var all := HydratePolymorphs(env, [entity], metas);
    SingleHydrated(env, metas, entity, old(entity.fields), old(Rows([entity])), old(Snapshot([entity])), all);
    r := if all.Ok? then Ok(all.value[0]) else Err(all.error);
  }

  /** `HydratedAs` for a one-entity list, in terms of that entity's own row. */
  lemma SingleHydrated(env: Env, metas: seq<Metadata>, e: Entity, row0: Row, rows0: seq<Row>, st0: map<Entity, Row>,
                       all: Result<seq<Entity>, Error>)
    requires |rows0| == 1 && rows0[0] == row0 && RowOf(st0, e) == row0
    requires HydratedAs(env, metas, [e], rows0, st0, all)
    ensures all.Ok? ==> all.value == [e]
    ensures SingleHydratedAs(env, metas, e, row0, if all.Ok? then Ok(e) else Err(all.error))
  {
    assert rows0 == [row0];
    var vs := Hydrations(env, [row0], metas);
    if vs.Ok? {
      RunSingle(st0, e, row => HydrateRow(env.classText, row, vs.value));
    } else {
      assert [e][0].fields == RowOf(st0, [e][0]);
    }
  }

  /** `hydrateOne(entity)`: `hydrateMany([entity])` and its first element. */
  method HydrateOne(env: Env, bag: MetadataBag, entity: Entity) returns (r: Result<Entity, Error>)
    modifies entity
    ensures GetPolymorphicMetadata(bag).Err? ==> r == Err(GetPolymorphicMetadata(bag).error) && unchanged(entity)
    ensures GetPolymorphicMetadata(bag).Ok? ==>
              SingleHydratedAs(env, GetPolymorphicMetadata(bag).value, entity, old(entity.fields), r)
  {
    var metas :- GetPolymorphicMetadata(bag);
    r := HydrateSingle(env, entity, metas);
  }

  /**
   * `find(options)`: the entities the ORM found (`found`) are returned as they
   * are for a class with no polymorphic property, and hydrated otherwise.
   */
  method Find(env: Env, bag: MetadataBag, found: seq<Entity>) returns (r: Result<seq<Entity>, Error>)
    modifies set e | e in found
    ensures !IsPolymorph(bag) ==> r == Ok(found) && forall i :: 0 <= i < |found| ==> unchanged(found[i])
    ensures IsPolymorph(bag) && GetPolymorphicMetadata(bag).Err? ==>
              r == Err(GetPolymorphicMetadata(bag).error) && forall i :: 0 <= i < |found| ==> unchanged(found[i])
    ensures IsPolymorph(bag) && GetPolymorphicMetadata(bag).Ok? ==>
              HydratedAs(env, GetPolymorphicMetadata(bag).value, found, old(Rows(found)), old(Snapshot(found)), r)
  {
    if !IsPolymorph(bag) {
      return Ok(found);
    }
    r := HydrateMany(env, bag, found);
  }

  /**
   * `findOne(options)`: the descriptors are read first; with none, the ORM's
   * answer (`found`, `None` for `null`) is returned as it is; a found entity
   * is hydrated alone.
   */
  method FindOne(env: Env, bag: MetadataBag, found: Option<Entity>) returns (r: Result<Option<Entity>, Error>)
    modifies if found.Some? then {found.value} else {}
    ensures GetPolymorphicMetadata(bag).Err? ==> r == Err(GetPolymorphicMetadata(bag).error)
    ensures GetPolymorphicMetadata(bag).Ok? && (GetPolymorphicMetadata(bag).value == [] || found.None?) ==> r == Ok(found)
    ensures found.Some? && GetPolymorphicMetadata(bag).Ok? && GetPolymorphicMetadata(bag) != Ok([]) ==>
              var vs := Hydrations(env, [old(found.value.fields)], GetPolymorphicMetadata(bag).value);
              (vs.Err? ==> r == Err(vs.error))
              && (vs.Ok? ==>
                    var s := HydrateRow(env.classText, old(found.value.fields), vs.value);
                    found.value.fields == s.row && (r.Ok? <==> s.error.None?)
                    && (r.Ok? ==> r.value == found) && (r.Err? ==> s.error == Some(r.error)))
    ensures found.Some? && (GetPolymorphicMetadata(bag).Err? || GetPolymorphicMetadata(bag) == Ok([])) ==> unchanged(found.value)
  {
    var metas :- GetPolymorphicMetadata(bag);
    if metas == [] || found.None? {
      return Ok(found);
    }
    var e := HydrateSingle(env, found.value, metas);
    if e.Err? {
      return Err(e.error);
    }
    r := Ok(Some(e.value));
  }
}
