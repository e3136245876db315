/**
 * Repository resolution (`resolveRepositoryToken`, `findRepository`) and the
 * environment the repository layer consumes: the ORM's repositories and
 * queries, and the reflection it uses on classes, all as given functions.
 */
module Locator {
  import opened Wrappers
  import opened JsValues
  import opened Errors

  /** One condition of a `where` object: a plain value or `In([...])`. */
  datatype Condition = Equals(value: Value) | AnyOf(values: seq<Value>)

  /** A `where` object: column name to condition. */
  type Criteria = map<string, Condition>

  /** A repository handle; `target` is the entity class it serves. */
  datatype Repo = Repo(target: Value)

  /** One `@EntityRepository(entity)` registration: the repository class `target` serves `entity`. */
  datatype Registration = Registration(target: Value, entity: Value)

  /**
   * What the layer takes from its surroundings. `className` is
   * `constructor.name`, `classText` is `Function.prototype.toString` (a class's
   * source text); `registrations` is the ORM's list of custom-repository
   * registrations in order; `customRepository` and `repository` are the
   * manager's lookups (`None` when nothing is found); `find` and `findOne` run
   * a query on a repository, `save` saves one value through the manager.
   */
  datatype Env = Env(
    className: ClassToken -> string,
    classText: ClassToken -> string,
    registrations: seq<Registration>,
    customRepository: Value -> Option<Repo>,
    repository: Value -> Option<Repo>,
    find: (Repo, Criteria) -> seq<Value>,
    findOne: (Repo, Criteria) -> Value,
    save: Value -> Value)

  /**
   * `resolveRepositoryToken`: the repository class of the first registration
   * whose entity is `token`, or `token` itself when none is.
   */
  function ResolveRepositoryToken(registrations: seq<Registration>, token: Value): (r: Value)
    ensures (forall i :: 0 <= i < |registrations| ==> registrations[i].entity != token) ==> r == token
    ensures forall i :: 0 <= i < |registrations| && registrations[i].entity == token
                   && (forall j :: 0 <= j < i ==> registrations[j].entity != token)
                   ==> r == registrations[i].target
    decreases |registrations|
  {
    if registrations == [] then token
    else if registrations[0].entity == token then registrations[0].target
    else
      var r := ResolveRepositoryToken(registrations[1..], token);
      assert forall i :: 1 <= i < |registrations| ==> registrations[i] == registrations[1..][i - 1];
      r
  }

  /**
   * `findRepository`: a custom repository when the token was redirected by a
   * registration, the default one otherwise; `RepositoryNotFound` with the
   * resolved token when the lookup finds nothing.
   */
  function FindRepository(env: Env, token: Value): (r: Result<Repo, Error>)
    ensures r.Err? ==> r.error == RepositoryNotFound(ResolveRepositoryToken(env.registrations, token))
    ensures ResolveRepositoryToken(env.registrations, token) == token
            ==> (r.Ok? <==> env.repository(token).Some?) && (r.Ok? ==> r.value == env.repository(token).value)
    ensures (forall i :: 0 <= i < |env.registrations| ==> env.registrations[i].entity != token)
            ==> (r.Ok? <==> env.repository(token).Some?) && (r.Ok? ==> r.value == env.repository(token).value)
    ensures forall i :: 0 <= i < |env.registrations| && env.registrations[i].entity == token
                   && (forall j :: 0 <= j < i ==> env.registrations[j].entity != token)
                   && env.registrations[i].target != token
                   ==> var custom := env.customRepository(env.registrations[i].target);
                       (r.Ok? <==> custom.Some?) && (r.Ok? ==> r.value == custom.value)
  {
    var resolved := ResolveRepositoryToken(env.registrations, token);
    var found := if resolved != token then env.customRepository(resolved) else env.repository(resolved);
    if found.None? then Err(RepositoryNotFound(resolved)) else Ok(found.value)
  }
}
