/**
 * The column-name helpers and the descriptor tests shared by both revisions of
 * the repository (src/polymorphic.repository.ts and the older
 * polymorphic/polymorphic.repository.ts define them identically).
 */
module Columns {
  import opened Wrappers
  import opened JsValues
  import opened PolymorphicInterface

  /** `configured || fallback` on an optional string option. */
  function OrDefault(configured: Option<string>, fallback: string): (c: string)
    requires fallback != ""
    ensures c != ""
    ensures configured.Some? && configured.value != "" ==> c == configured.value
    ensures configured.None? || configured == Some("") ==> c == fallback
  {
    if configured.Some? && configured.value != "" then configured.value else fallback
  }

  /** The owning row's type-discriminator column: `entityTypeColumn || 'entityType'`. */
  function EntityTypeColumn(m: Metadata): (c: string)
    ensures c != ""
    ensures c == "entityType" || m.entityTypeColumn == Some(c)
    ensures m.entityTypeColumn.Some? && m.entityTypeColumn.value != "" ==> c == m.entityTypeColumn.value
  {
    OrDefault(m.entityTypeColumn, "entityType")
  }

  /**
   * The owning row's foreign-key column: `entityTypeId || 'entityId'`. It reads
   * `entityTypeId`, not the declared option `entityIdColumn`.
   */
  function EntityIdColumn(m: Metadata): (c: string)
    ensures c != ""
    ensures c == "entityId" || m.entityTypeId == Some(c)
    ensures m.entityTypeId.None? ==> c == "entityId"
  {
    OrDefault(m.entityTypeId, "entityId")
  }

  /** The target's key column: `primaryColumn || 'id'`. */
  function PrimaryColumn(m: Metadata): (c: string)
    ensures c != ""
    ensures c == "id" || m.primaryColumn == Some(c)
    ensures m.primaryColumn.Some? && m.primaryColumn.value != "" ==> c == m.primaryColumn.value
  {
    OrDefault(m.primaryColumn, "id")
  }

  /** A configured `entityIdColumn` never changes the id column of a resolved descriptor. */
  lemma IdColumnIgnoresEntityIdColumn(o: MetadataOptions, p: string, configured: Option<string>)
    ensures EntityIdColumn(Resolve(p, o)) == "entityId"
    ensures EntityIdColumn(Resolve(p, o.(entityIdColumn := configured))) == EntityIdColumn(Resolve(p, o))
  {
  }

  /** `isChildren`: the tag test `options.type === 'children'`. */
  predicate IsChildren(m: Metadata)
    ensures IsChildren(m) <==> m.kind == Children
  {
    Tag(m.kind) == "children"
  }

  /** `isParent`: the tag test `options.type === 'parent'`. */
  predicate IsParent(m: Metadata)
    ensures IsParent(m) <==> m.kind == Parent
    ensures IsParent(m) <==> !IsChildren(m)
  {
    Tag(m.kind) == "parent"
  }

  /** `Array.isArray(classType) ? classType : [classType]`. */
  function ClassTypes(m: Metadata): (types: seq<Value>)
    ensures m.classType.Several? ==> types == m.classType.targets
    ensures m.classType.Single? ==> types == [m.classType.target]
  {
    match m.classType
    case Single(t) => [t]
    case Several(ts) => ts
  }
}
