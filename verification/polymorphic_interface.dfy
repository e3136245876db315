/**
 * The record types of a polymorphic association: the options a decorator
 * stores, the options a decorator caller may pass, the resolved descriptor the
 * repository works with, and the reference a child row carries.
 */
module PolymorphicInterface {
  import opened Wrappers
  import opened JsValues

  /** The `type` tag of a descriptor: `'children'` or `'parent'`. */
  datatype Direction = Children | Parent

  /** The tag as the source spells it. */
  function Tag(d: Direction): (s: string)
    ensures s == "children" || s == "parent"
  {
    match d
    case Children => "children"
    case Parent => "parent"
  }

  /** Reads a tag back; only the two spellings are tags. */
  function ParseTag(s: string): (r: Option<Direction>)
    ensures r.Some? <==> s == "children" || s == "parent"
    ensures r.Some? ==> Tag(r.value) == s
    ensures forall d :: Tag(d) == s ==> r == Some(d)
  {
    if s == "children" then Some(Children)
    else if s == "parent" then Some(Parent)
    else None
  }

  /** `Function | Function[]`: one target class or a list of them. */
  datatype ClassType = Single(target: Value) | Several(targets: seq<Value>)

  /**
   * `PolymorphicMetadataOptionsInterface`: what a decorator registers. The
   * flags are required, the three column names optional, and `classType` is a
   * thunk, called only when the repository reads the descriptor back.
   */
  datatype MetadataOptions = MetadataOptions(
    kind: Direction,
    classType: () -> ClassType,
    hasMany: bool,
    eager: bool,
    cascade: bool,
    deleteBeforeUpdate: bool,
    primaryColumn: Option<string>,
    entityTypeColumn: Option<string>,
    entityIdColumn: Option<string>)

  /**
   * `PolymorphicDecoratorOptionsInterface`: every field optional (`None` is an
   * absent property); there is no `type` and no `classType`.
   */
  datatype DecoratorOptions = DecoratorOptions(
    deleteBeforeUpdate: Option<bool>,
    primaryColumn: Option<string>,
    hasMany: Option<bool>,
    cascade: Option<bool>,
    eager: Option<bool>,
    entityTypeColumn: Option<string>,
    entityIdColumn: Option<string>)

  /** A decorator call with no options argument (`options = {}`). */
  const NoOptions := DecoratorOptions(None, None, None, None, None, None, None)

  /**
   * `PolymorphicMetadataInterface`: a descriptor as the repository sees it,
   * with `classType` resolved and the decorated `propertyKey`.
   * `entityTypeId` is not a declared option: no decorator sets it, but it is
   * the property the id-column helper reads.
   */
  datatype Metadata = Metadata(
    propertyKey: string,
    kind: Direction,
    classType: ClassType,
    hasMany: bool,
    eager: bool,
    cascade: bool,
    deleteBeforeUpdate: bool,
    primaryColumn: Option<string>,
    entityTypeColumn: Option<string>,
    entityIdColumn: Option<string>,
    entityTypeId: Option<string>)

  /** `PolymorphicChildType`: a descriptor whose tag is `'children'`. */
  type ChildMetadata = m: Metadata | m.kind == Children
    witness Metadata("", Children, Several([]), true, true, true, false, None, None, None, None)

  /** `PolymorphicParentType`: a descriptor whose tag is `'parent'`. */
  type ParentMetadata = m: Metadata | m.kind == Parent
    witness Metadata("", Parent, Several([]), false, true, true, false, None, None, None, None)

  /**
   * `{ ...data, classType: data.classType() }` over the stored
   * `{ propertyKey, ...options }`: every option is carried over and the thunk
   * is replaced by its value.
   */
  function Resolve(propertyKey: string, o: MetadataOptions): (m: Metadata)
    ensures m.propertyKey == propertyKey && m.kind == o.kind
    ensures m.classType == o.classType()
    ensures m.hasMany == o.hasMany && m.eager == o.eager && m.cascade == o.cascade
    ensures m.deleteBeforeUpdate == o.deleteBeforeUpdate
    ensures m.primaryColumn == o.primaryColumn && m.entityTypeColumn == o.entityTypeColumn
    ensures m.entityIdColumn == o.entityIdColumn
    ensures m.entityTypeId.None?
  {
    Metadata(propertyKey, o.kind, o.classType(), o.hasMany, o.eager, o.cascade,
             o.deleteBeforeUpdate, o.primaryColumn, o.entityTypeColumn, o.entityIdColumn, None)
  }

  /** The options form of a resolved descriptor, its class type wrapped back in a thunk. */
  function Unresolve(m: Metadata): (o: MetadataOptions)
  {
    MetadataOptions(m.kind, () => m.classType, m.hasMany, m.eager, m.cascade,
                    m.deleteBeforeUpdate, m.primaryColumn, m.entityTypeColumn, m.entityIdColumn)
  }

  /** Resolving loses nothing but the undeclared `entityTypeId`. */
  lemma ResolveUnresolve(m: Metadata)
    requires m.entityTypeId.None?
    ensures Resolve(m.propertyKey, Unresolve(m)) == m
  {
  }

  /** `PolymorphicChildInterface['entityId']`: `number | string`. */
  datatype EntityId = NumericId(n: int) | TextId(s: string)

  /** `PolymorphicChildInterface`: the reference a child row holds to its owner. */
  datatype ChildRef = ChildRef(entityId: EntityId, entityType: string)

  function IdValue(id: EntityId): Value
  {
    match id
    case NumericId(n) => Num(n)
    case TextId(s) => Str(s)
  }

  /** The two columns of a child row that hold its reference. */
  function ChildRow(c: ChildRef): (row: Row)
    ensures Get(row, "entityId") == IdValue(c.entityId)
    ensures Get(row, "entityType") == Str(c.entityType)
    ensures row.Keys == {"entityId", "entityType"}
  {
    map["entityId" := IdValue(c.entityId), "entityType" := Str(c.entityType)]
  }

  /** Reads a child reference from a row; `None` when a column has the wrong type. */
  function AsChildRef(row: Row): (r: Option<ChildRef>)
    ensures r.Some? <==> (Get(row, "entityId").Num? || Get(row, "entityId").Str?) && Get(row, "entityType").Str?
    ensures r.Some? ==> IdValue(r.value.entityId) == Get(row, "entityId") && Str(r.value.entityType) == Get(row, "entityType")
  {
    var id := Get(row, "entityId");
    var ty := Get(row, "entityType");
    if !ty.Str? then None
    else if id.Num? then Some(ChildRef(NumericId(id.n), ty.s))
    else if id.Str? then Some(ChildRef(TextId(id.s), ty.s))
    else None
  }

  /** A child reference survives being written to a row and read back. */
  lemma ChildRefRoundTrip(c: ChildRef)
    ensures AsChildRef(ChildRow(c)) == Some(c)
  {
  }
}
