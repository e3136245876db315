/**
 * `findPolymorphs` of the current revision: which repository is asked, with
 * which method and which `where` criteria, for one target type of one
 * descriptor over a batch of owning rows. Running the query is the ORM's
 * business and is a given function of the environment.
 */
module Queries {
  import opened Wrappers
  import opened JsValues
  import opened Seqs
  import opened Errors
  import opened PolymorphicInterface
  import opened Columns
  import opened Locator

  /** `repository.find` or `repository.findOne`. */
  datatype QueryMethod = Find | FindOne

  /** One query: the repository, the method and the `where` object. */
  datatype Query = Query(repo: Repo, call: QueryMethod, criteria: Criteria)

  /** `rows.map((p) => p[column])`. */
  function Column(rows: seq<Row>, column: string): (vs: seq<Value>)
    ensures |vs| == |rows|
    ensures forall i :: 0 <= i < |rows| ==> vs[i] == Get(rows[i], column)
  {
    seq(|rows|, i requires 0 <= i < |rows| => Get(rows[i], column))
  }

  /**
   * The rows whose own `entityType` property is the string `text`. The
   * property name is fixed: a configured type column is not consulted.
   */
  function Matching(rows: seq<Row>, text: string): (hits: seq<Row>)
    ensures forall row :: row in hits <==> row in rows && Get(row, "entityType") == Str(text)
    ensures |hits| <= |rows|
  {
    Filter(rows, OfType(text))
  }

  /**
   * `filter` keeps the rows at the indices whose row has the type, in index
   * order, each as often as `rows` holds it; so `length > 1` means that more
   * than one owning row (counted with repeats) has the type.
   */
  lemma MatchingInOrder(rows: seq<Row>, text: string)
    ensures var ps := Passing(rows, OfType(text));
            (forall i :: i in ps <==> 0 <= i < |rows| && Get(rows[i], "entityType") == Str(text))
            && (forall a, b :: 0 <= a < b < |ps| ==> ps[a] < ps[b])
            && |Matching(rows, text)| == |ps|
            && forall j :: 0 <= j < |ps| ==> Matching(rows, text)[j] == rows[ps[j]]
    ensures forall row :: multiset(Matching(rows, text))[row]
                          == if Get(row, "entityType") == Str(text) then multiset(rows)[row] else 0
  {
    FilterOrder(rows, OfType(text));
    FilterCount(rows, OfType(text));
  }

  /** The row filter's test: the row's own `entityType` is the string `text`. */
  function OfType(text: string): Row -> bool
  {
    row => Get(row, "entityType") == Str(text)
  }

  /**
   * The query `findPolymorphs(entities, entityType, options)` sends. The row
   * filter compares `repository.target.toString()`, which throws on a
   * `null`/`undefined` target as soon as there is a row to compare.
   */
  function BuildQuery(env: Env, rows: seq<Row>, entityType: Value, m: Metadata): (r: Result<Query, Error>)
    ensures FindRepository(env, entityType).Err? ==> r == Err(FindRepository(env, entityType).error)
    ensures FindRepository(env, entityType).Ok? ==>
              var repo := FindRepository(env, entityType).value;
              (r.Err? <==> rows != [] && (repo.target.Undefined? || repo.target.Null?))
              && (r.Ok? ==> r.value.repo == repo)
    ensures r.Ok? ==>
              var hits := Matching(rows, ToStr(env.classText, r.value.repo.target));
              (r.value.call == Find <==> m.hasMany || |hits| > 1)
              && (m.kind == Parent ==>
                    r.value.criteria == map[PrimaryColumn(m) := AnyOf(Column(hits, EntityIdColumn(m)))])
              && (m.kind == Children ==>
                    r.value.criteria.Keys == {EntityIdColumn(m), EntityTypeColumn(m)}
                    && r.value.criteria[EntityTypeColumn(m)] == Equals(entityType)
                    && (EntityIdColumn(m) != EntityTypeColumn(m) ==>
                          r.value.criteria[EntityIdColumn(m)] == AnyOf(Column(hits, PrimaryColumn(m)))))
  {
    var repo :- FindRepository(env, entityType);
    if rows != [] && (repo.target.Undefined? || repo.target.Null?) then
      Err(TypeError("Cannot read properties of " + ToStr(env.classText, repo.target) + " (reading 'toString')"))
    else
      var hits := Matching(rows, ToStr(env.classText, repo.target));
      var call := if m.hasMany || |hits| > 1 then Find else FindOne;
      var criteria :=
        if IsParent(m) then map[PrimaryColumn(m) := AnyOf(Column(hits, EntityIdColumn(m)))]
        else map[EntityIdColumn(m) := AnyOf(Column(hits, PrimaryColumn(m)))][EntityTypeColumn(m) := Equals(entityType)];
      Ok(Query(repo, call, criteria))
  }

  /** What the query returns: all found rows as an array, or one row (`null` when none). */
  function Execute(env: Env, q: Query): (v: Value)
    ensures q.call == Find ==> v == Arr(env.find(q.repo, q.criteria))
    ensures q.call == FindOne ==> v == env.findOne(q.repo, q.criteria)
  {
    match q.call
    case Find => Arr(env.find(q.repo, q.criteria))
    case FindOne => env.findOne(q.repo, q.criteria)
  }

  /** `findPolymorphs(entities, entityType, options)`. */
  function FindPolymorphs(env: Env, rows: seq<Row>, entityType: Value, m: Metadata): (r: Result<Value, Error>)
    ensures r.Ok? <==> BuildQuery(env, rows, entityType, m).Ok?
    ensures r.Ok? ==> r.value == Execute(env, BuildQuery(env, rows, entityType, m).value)
  {
    var q :- BuildQuery(env, rows, entityType, m);
    Ok(Execute(env, q))
  }

  /**
   * Only rows of the queried type contribute ids, whatever type column is
   * configured: changing the configured column changes neither the method
   * nor the parent criteria.
   */
  lemma RowFilterIgnoresTypeColumn(env: Env, rows: seq<Row>, entityType: Value, m: Metadata, column: Option<string>)
    requires m.kind == Parent
    ensures var a := BuildQuery(env, rows, entityType, m);
            var b := BuildQuery(env, rows, entityType, m.(entityTypeColumn := column));
            a == b
  {
  }

  /**
   * Adding an owning row whose `entityType` is not the target's text changes
   * nothing (once there is a row, so that the target's text was computed).
   */
  lemma ForeignRowsIgnored(env: Env, rows: seq<Row>, extra: Row, entityType: Value, m: Metadata)
    requires rows != [] && BuildQuery(env, rows, entityType, m).Ok?
    requires Get(extra, "entityType") != Str(ToStr(env.classText, BuildQuery(env, rows, entityType, m).value.repo.target))
    ensures BuildQuery(env, rows + [extra], entityType, m) == BuildQuery(env, rows, entityType, m)
  {
    var text := ToStr(env.classText, BuildQuery(env, rows, entityType, m).value.repo.target);
    FilterAppend(rows, [extra], OfType(text));
    assert Matching([extra], text) == [];
    assert Matching(rows + [extra], text) == Matching(rows, text);
  }
}
