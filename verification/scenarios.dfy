/**
 * The fixture classes of the repository's own tests, as declarations: an
 * advert belongs to a user, a merchant or an admin; users, merchants and
 * admins each hold their adverts; admins key on `admin_id`, and a merchant's
 * second association names its own type and id columns.
 */
module Scenarios {
  import opened Wrappers
  import opened JsValues
  import opened PolymorphicInterface
  import opened Columns
  import opened Decorators
  import opened PolymorphicMetadata
  import opened Entities
  import opened Persistence
  import opened LegacyRepository
  import opened Locator

  const UserClass := ClassToken(1)
  const MerchantClass := ClassToken(2)
  const AdminClass := ClassToken(3)
  const AdvertClass := ClassToken(4)

  /** `@PolymorphicParent(() => [UserEntity, MerchantEntity, AdminEntity], { eager: true }) owner`. */
  const AdvertOwner := ParentOptions(() => Several([Class(UserClass), Class(MerchantClass), Class(AdminClass)]),
                                     NoOptions.(eager := Some(true)))

  /** `@PolymorphicChildren(() => AdvertEntity, { eager: false, primaryColumn: "admin_id" }) adverts`. */
  const AdminAdverts := ChildrenOptions(() => Single(Class(AdvertClass)),
                                        NoOptions.(eager := Some(false), primaryColumn := Some("admin_id")))

  /** `@PolymorphicChildren(() => AdvertEntity, { eager: false }) adverts` of users and merchants. */
  const PlainAdverts := ChildrenOptions(() => Single(Class(AdvertClass)), NoOptions.(eager := Some(false)))

  /**
   * `@PolymorphicChildren(() => AdvertEntity, { entityTypeColumn: 'creatorType',
   * entityIdColumn: 'creatorId', eager: false }) createdAdverts`.
   */
  const CreatedAdverts := ChildrenOptions(() => Single(Class(AdvertClass)),
                                          NoOptions.(entityTypeColumn := Some("creatorType"),
                                                     entityIdColumn := Some("creatorId"),
                                                     eager := Some(false)))

  /** The metadata of the advert class, and of the merchant class. */
  const AdvertDeclarations := [Declaration("owner", AdvertOwner)]
  const MerchantDeclarations := [Declaration("adverts", PlainAdverts), Declaration("createdAdverts", CreatedAdverts)]

  /**
   * The advert's owner reads back as a single parent over the three owner
   * classes, with every column at its default.
   */
  lemma AdvertOwnerDescriptor(rev: Revision)
    ensures Collect(Registered(AdvertDeclarations), Registered(AdvertDeclarations).keys, rev)
            == Ok([Resolve("owner", AdvertOwner)])
    ensures var m := Resolve("owner", AdvertOwner);
            IsParent(m) && !m.hasMany && m.eager && m.cascade && !m.deleteBeforeUpdate
            && ClassTypes(m) == [Class(UserClass), Class(MerchantClass), Class(AdminClass)]
            && EntityTypeColumn(m) == "entityType" && EntityIdColumn(m) == "entityId" && PrimaryColumn(m) == "id"
  {
    RegisterThenRead(AdvertDeclarations, rev);
    var r := Collect(Registered(AdvertDeclarations), Registered(AdvertDeclarations).keys, rev);
    assert r.value[0] == Resolve("owner", AdvertOwner);
    One(r.value, Resolve("owner", AdvertOwner));
  }

  /**
   * The merchant's second association: its type column is `creatorType`,
   * but its id column stays `entityId`, because the configured `creatorId`
   * is never read.
   */
  lemma MerchantColumns()
    ensures var m := Resolve("createdAdverts", CreatedAdverts);
            IsChildren(m) && m.hasMany && !m.eager
            && EntityTypeColumn(m) == "creatorType" && EntityIdColumn(m) == "entityId"
  {
  }

  /** The merchant's two associations read back in declaration order. */
  lemma MerchantDescriptors(rev: Revision)
    ensures Collect(Registered(MerchantDeclarations), Registered(MerchantDeclarations).keys, rev)
            == Ok([Resolve("adverts", PlainAdverts), Resolve("createdAdverts", CreatedAdverts)])
  {
    RegisterThenRead(MerchantDeclarations, rev);
    var r := Collect(Registered(MerchantDeclarations), Registered(MerchantDeclarations).keys, rev);
    assert r.value[0] == Resolve("adverts", PlainAdverts);
    assert r.value[1] == Resolve("createdAdverts", CreatedAdverts);
    Pair(r.value, Resolve("adverts", PlainAdverts), Resolve("createdAdverts", CreatedAdverts));
  }

  lemma One<T>(s: seq<T>, a: T)
    requires |s| == 1 && s[0] == a
    ensures s == [a]
  {
  }

  lemma Pair<T>(s: seq<T>, a: T, b: T)
    requires |s| == 2 && s[0] == a && s[1] == b
    ensures s == [a, b]
  {
  }

  /** The admin's adverts are looked up by the admin's `admin_id`. */
  lemma AdminLookupCriteria(admin: Row)
    ensures var m := Resolve("adverts", AdminAdverts);
            PrimaryColumn(m) == "admin_id"
            && LegacyCriteria(admin, Class(AdminClass), m)
               == map["entityId" := Equals(Get(admin, "admin_id")), "entityType" := Equals(Class(AdminClass))]
  {
    var m := Resolve("adverts", AdminAdverts);
    var c := LegacyCriteria(admin, Class(AdminClass), m);
    assert c.Keys == {"entityId", "entityType"};
  }

  /**
   * Saving an advert whose owner is the user with id `id` and whose id
   * column is unset stamps `entityId := id` and `entityType := UserEntity's name`.
   */
  lemma StampAdvertOwner(className: ClassToken -> string, id: int)
    ensures var row := map["owner" := Obj(UserClass, map["id" := Num(id)])];
            StampRow(className, row, [Resolve("owner", AdvertOwner)])
            == row["entityId" := Num(id)]["entityType" := Str(className(UserClass))]
  {
    var row := map["owner" := Obj(UserClass, map["id" := Num(id)])];
    var m := Resolve("owner", AdvertOwner);
    assert [m][..0] == [];
    assert StampRow(className, row, [m]) == StampOne(className, row, m);
  }

  /** An advert whose `entityId` is `null` keeps it, and its type, whatever its owner. */
  lemma NullIdNotStamped(className: ClassToken -> string, owner: Value, entityType: Value)
    ensures var row := map["owner" := owner, "entityId" := Null, "entityType" := entityType];
            StampRow(className, row, [Resolve("owner", AdvertOwner)]) == row
  {
    var row := map["owner" := owner, "entityId" := Null, "entityType" := entityType];
    DefinedIdsKept(className, row, [Resolve("owner", AdvertOwner)]);
  }

  /**
   * The repository test "Can create": `create({ owner: user })` on the advert
   * repository gives the entity the ORM created, holding that very user as
   * its owner.
   */
  method CanCreate(user: Value, created: Row) returns (result: Entity)
    ensures Get(result.fields, "owner") == user
    ensures forall k :: k != "owner" ==> Get(result.fields, k) == Get(created, k)
  {
    var bag := Registered(AdvertDeclarations);
    AdvertOwnerDescriptor(Current);
    var entity := new Entity(created);
    var plain := Obj(AdvertClass, map["owner" := user]);
    var r := Create(bag, Current, plain, entity);
    OwnerCopied(user, created);
    result := entity;
  }

  /** The copy-through of `create({ owner: user })`: `owner` is the user, the rest as created. */
  lemma OwnerCopied(user: Value, created: Row)
    ensures var row := CopyThrough(created, Obj(AdvertClass, map["owner" := user]), [Resolve("owner", AdvertOwner)]);
            Get(row, "owner") == user && forall k :: k != "owner" ==> Get(row, k) == Get(created, k)
  {
    var plain := Obj(AdvertClass, map["owner" := user]);
    CopyThroughValues(created, plain, [Resolve("owner", AdvertOwner)], "owner");
    forall k | k != "owner" ensures Get(CopyThrough(created, plain, [Resolve("owner", AdvertOwner)]), k) == Get(created, k) {
      CopyThroughValues(created, plain, [Resolve("owner", AdvertOwner)], k);
    }
  }
}
