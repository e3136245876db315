/**
 * The decorators that declare polymorphic associations and polymorphic
 * repositories, and the reflection metadata store they write into.
 *
 * The store keeps, per decorated target, its metadata keys in insertion order
 * (redefining a key keeps its place, as `Map.prototype.set` does) and the value
 * under each key.
 */
module Decorators {
  import opened Wrappers
  import opened JsValues
  import opened Seqs
  import opened PolymorphicInterface

  /** Metadata key of the marker, and prefix of every descriptor key. */
  const POLYMORPHIC_OPTIONS: string := "POLYMORPHIC_OPTIONS"
  /** Separator between the prefix and the property name. */
  const POLYMORPHIC_KEY_SEPARATOR: string := "::"
  /** Metadata key under which a repository class records its entity. */
  const POLYMORPHIC_REPOSITORY: string := "POLYMORPHIC_REPOSITORY"

  /** Where metadata is attached: a class's prototype, or a function object. */
  datatype Target = Prototype(cls: ClassToken) | Function(fn: Value)

  /** A metadata value: a plain JavaScript value, or a registered association descriptor. */
  datatype MetaValue =
    | Plain(value: Value)
    | Descriptor(propertyKey: string, options: MetadataOptions)

  /** The metadata of one target. */
  datatype MetadataBag = MetadataBag(keys: seq<string>, values: map<string, MetaValue>) {

    ghost predicate Valid()
    {
      NoDup(keys) && forall k :: k in values <==> k in keys
    }

    /** `Reflect.getMetadata(key, target)`; a missing key reads as `undefined`. */
    function Get(key: string): MetaValue
    {
      if key in values then values[key] else Plain(Undefined)
    }

    /** `Reflect.defineMetadata(key, v, target)`. */
    function Define(key: string, v: MetaValue): (b: MetadataBag)
      ensures b.Get(key) == v
      ensures forall k :: k != key ==> b.Get(k) == Get(k)
      ensures key in values ==> b.keys == keys
      ensures key !in values && Valid() ==> b.keys == keys + [key]
      ensures Valid() ==> b.Valid()
    {
      if key in values then MetadataBag(keys, values[key := v])
      else MetadataBag(keys + [key], values[key := v])
    }
  }

  const EmptyBag := MetadataBag([], map[])

  /** The process-wide reflection metadata store. */
  class MetadataStore {
    var entries: map<Target, MetadataBag>

    ghost predicate Valid()
      reads this
    {
      forall t :: t in entries ==> entries[t].Valid()
    }

    constructor ()
      ensures Valid() && entries == map[]
    {
      entries := map[];
    }

    /** The metadata attached to `target` (empty when nothing is). */
    function Of(target: Target): (b: MetadataBag)
      reads this
      ensures Valid() ==> b.Valid()
    {
      if target in entries then entries[target] else EmptyBag
    }

    method DefineMetadata(key: string, value: MetaValue, target: Target)
      requires Valid()
      modifies this
      ensures Valid()
      ensures entries == old(entries)[target := old(Of(target)).Define(key, value)]
    {
      entries := entries[target := Of(target).Define(key, value)];
    }
  }

  /** `${POLYMORPHIC_OPTIONS}${POLYMORPHIC_KEY_SEPARATOR}${propertyKey}`. */
  function RegistryKey(propertyKey: string): (k: string)
    ensures |k| > |POLYMORPHIC_OPTIONS|
    ensures k != POLYMORPHIC_OPTIONS
  {
    POLYMORPHIC_OPTIONS + POLYMORPHIC_KEY_SEPARATOR + propertyKey
  }

  /** Distinct property names give distinct registry keys. */
  lemma RegistryKeyInjective(p: string, q: string)
    requires p != q
    ensures RegistryKey(p) != RegistryKey(q)
  {
    var n := |POLYMORPHIC_OPTIONS + POLYMORPHIC_KEY_SEPARATOR|;
    assert RegistryKey(p)[n..] == p;
    assert RegistryKey(q)[n..] == q;
  }

  /** Splitting a registry key at the separator gives back the prefix. */
  lemma RegistryKeyPrefix(p: string)
    ensures FirstSegment(RegistryKey(p), POLYMORPHIC_KEY_SEPARATOR) == POLYMORPHIC_OPTIONS
    ensures FirstSegment(POLYMORPHIC_OPTIONS, POLYMORPHIC_KEY_SEPARATOR) == POLYMORPHIC_OPTIONS
  {
    FirstSegmentBeforeSeparator(POLYMORPHIC_OPTIONS, POLYMORPHIC_KEY_SEPARATOR, p);
    FirstSegmentWithoutSeparator(POLYMORPHIC_OPTIONS, POLYMORPHIC_KEY_SEPARATOR);
  }

  /**
   * `PolymorphicChildren(classType, options)`: type `'children'`, `hasMany`,
   * `eager` and `cascade` on, `deleteBeforeUpdate` off, unless the caller's
   * options say otherwise (their spread comes last).
   */
  function ChildrenOptions(classType: () -> ClassType, options: DecoratorOptions): (o: MetadataOptions)
    ensures o.kind == Children && o.classType == classType
    ensures options.hasMany.None? ==> o.hasMany
    ensures options.eager.None? ==> o.eager
    ensures options.cascade.None? ==> o.cascade
    ensures options.deleteBeforeUpdate.None? ==> !o.deleteBeforeUpdate
    ensures options.hasMany.Some? ==> o.hasMany == options.hasMany.value
    ensures options.eager.Some? ==> o.eager == options.eager.value
    ensures options.cascade.Some? ==> o.cascade == options.cascade.value
    ensures options.deleteBeforeUpdate.Some? ==> o.deleteBeforeUpdate == options.deleteBeforeUpdate.value
    ensures o.primaryColumn == options.primaryColumn
    ensures o.entityTypeColumn == options.entityTypeColumn
    ensures o.entityIdColumn == options.entityIdColumn
  {
    MetadataOptions(
      Children, classType,
      if options.hasMany.Some? then options.hasMany.value else true,
      if options.eager.Some? then options.eager.value else true,
      if options.cascade.Some? then options.cascade.value else true,
      if options.deleteBeforeUpdate.Some? then options.deleteBeforeUpdate.value else false,
      options.primaryColumn, options.entityTypeColumn, options.entityIdColumn)
  }

  /**
   * `PolymorphicParent(classType, options)`: the same defaults as
   * `PolymorphicChildren` except type `'parent'` and `hasMany` off.
   */
  function ParentOptions(classType: () -> ClassType, options: DecoratorOptions): (o: MetadataOptions)
    ensures o.kind == Parent && o.classType == classType
    ensures options.hasMany.None? ==> !o.hasMany
    ensures options.hasMany.Some? ==> o.hasMany == options.hasMany.value
    ensures o == ChildrenOptions(classType, options).(kind := Parent, hasMany := o.hasMany)
  {
    MetadataOptions(
      Parent, classType,
      if options.hasMany.Some? then options.hasMany.value else false,
      if options.eager.Some? then options.eager.value else true,
      if options.cascade.Some? then options.cascade.value else true,
      if options.deleteBeforeUpdate.Some? then options.deleteBeforeUpdate.value else false,
      options.primaryColumn, options.entityTypeColumn, options.entityIdColumn)
  }

  /**
   * What `polymorphicPropertyDecorator(options)(target, propertyKey)` does to
   * the target's metadata: the marker key becomes `true` and the registry key
   * of the property holds `{ propertyKey, ...options }`; nothing else changes.
   */
  function DecorateBag(bag: MetadataBag, propertyKey: string, options: MetadataOptions): (b: MetadataBag)
    ensures b.Get(POLYMORPHIC_OPTIONS) == Plain(Bool(true))
    ensures b.Get(RegistryKey(propertyKey)) == Descriptor(propertyKey, options)
    ensures forall k :: k != POLYMORPHIC_OPTIONS && k != RegistryKey(propertyKey) ==> b.Get(k) == bag.Get(k)
    ensures bag.Valid() ==> b.Valid()
  {
    bag.Define(POLYMORPHIC_OPTIONS, Plain(Bool(true)))
       .Define(RegistryKey(propertyKey), Descriptor(propertyKey, options))
  }

  /** Decorating the same property twice leaves what the second decoration alone would. */
  lemma ReRegisterOverwrites(bag: MetadataBag, p: string, first: MetadataOptions, second: MetadataOptions)
    ensures DecorateBag(DecorateBag(bag, p, first), p, second) == DecorateBag(bag, p, second)
  {
  }

  /** The property decorator applied to `propertyKey` of the class `target`. */
  method DecorateProperty(store: MetadataStore, options: MetadataOptions, target: ClassToken, propertyKey: string)
    requires store.Valid()
    modifies store
    ensures store.Valid()
    ensures store.entries == old(store.entries)[Prototype(target) := DecorateBag(old(store.Of(Prototype(target))), propertyKey, options)]
  {
    store.DefineMetadata(POLYMORPHIC_OPTIONS, Plain(Bool(true)), Prototype(target));
    store.DefineMetadata(RegistryKey(propertyKey), Descriptor(propertyKey, options), Prototype(target));
  }

  /** The property descriptor a decorator may receive; its `value` is the decorated function. */
  datatype PropertyDescriptor = PropertyDescriptor(value: Target)

  /** What a class decorator hands back. */
  datatype Decoration = ReturnsDescriptor(descriptor: PropertyDescriptor) | ReturnsTarget(target: Target)

  /**
   * `PolymorphicRepository(entity)`: records `entity` under the repository key
   * on `descriptor.value` and returns the descriptor when one is supplied,
   * otherwise on the target, returning the target.
   */
  method PolymorphicRepository(store: MetadataStore, entity: Value, target: Target, descriptor: Option<PropertyDescriptor>)
    returns (r: Decoration)
    requires store.Valid()
    modifies store
    ensures store.Valid()
    ensures descriptor.Some? ==> r == ReturnsDescriptor(descriptor.value)
    ensures descriptor.None? ==> r == ReturnsTarget(target)
    ensures var on := if descriptor.Some? then descriptor.value.value else target;
            store.entries == old(store.entries)[on := old(store.Of(on)).Define(POLYMORPHIC_REPOSITORY, Plain(entity))]
  {
    if descriptor.Some? {
      store.DefineMetadata(POLYMORPHIC_REPOSITORY, Plain(entity), descriptor.value.value);
      return ReturnsDescriptor(descriptor.value);
    }
    store.DefineMetadata(POLYMORPHIC_REPOSITORY, Plain(entity), target);
    return ReturnsTarget(target);
  }

  /** One association declared on a class: the decorated property and its options. */
  datatype Declaration = Declaration(propertyKey: string, options: MetadataOptions)

  /** The metadata of a class whose properties were decorated in the order given. */
  function Registered(declarations: seq<Declaration>): (b: MetadataBag)
    ensures b.Valid()
    decreases |declarations|
  {
    if declarations == [] then EmptyBag
    else
      var last := declarations[|declarations| - 1];
      DecorateBag(Registered(declarations[..|declarations| - 1]), last.propertyKey, last.options)
  }

  /** The registry keys of the declarations, in order. */
  function RegistryKeys(declarations: seq<Declaration>): (ks: seq<string>)
    ensures |ks| == |declarations|
    ensures forall i :: 0 <= i < |ks| ==> ks[i] == RegistryKey(declarations[i].propertyKey)
    decreases |declarations|
  {
    if declarations == [] then []
    else
      var n := |declarations| - 1;
      RegistryKeys(declarations[..n]) + [RegistryKey(declarations[n].propertyKey)]
  }

  /** One decoration appends the new registry key, and the marker when it was missing. */
  lemma DecorateKeys(bag: MetadataBag, p: string, o: MetadataOptions)
    requires bag.Valid() && RegistryKey(p) !in bag.keys
    requires bag.keys == [] || POLYMORPHIC_OPTIONS in bag.keys
    ensures DecorateBag(bag, p, o).keys
            == (if bag.keys == [] then [POLYMORPHIC_OPTIONS] else bag.keys) + [RegistryKey(p)]
  {
    var b1 := bag.Define(POLYMORPHIC_OPTIONS, Plain(Bool(true)));
    assert b1.keys == (if bag.keys == [] then [POLYMORPHIC_OPTIONS] else bag.keys);
    assert RegistryKey(p) !in b1.values;
  }

  /** Declarations that decorate pairwise different properties. */
  ghost predicate DistinctProperties(declarations: seq<Declaration>)
  {
    forall i, j :: 0 <= i < j < |declarations| ==> declarations[i].propertyKey != declarations[j].propertyKey
  }

  /** A property not declared yet has a registry key not used yet. */
  lemma FreshRegistryKey(declarations: seq<Declaration>, p: string)
    requires forall i :: 0 <= i < |declarations| ==> declarations[i].propertyKey != p
    ensures RegistryKey(p) !in RegistryKeys(declarations)
  {
    forall i | 0 <= i < |declarations| ensures RegistryKeys(declarations)[i] != RegistryKey(p) {
      RegistryKeyInjective(declarations[i].propertyKey, p);
    }
  }

  /** The keys of the first declarations, and the marker once there is one. */
  lemma {:induction false} RegisteredKeys(declarations: seq<Declaration>)
    requires DistinctProperties(declarations)
    ensures Registered(declarations).keys == (if declarations == [] then [] else [POLYMORPHIC_OPTIONS] + RegistryKeys(declarations))
    decreases |declarations|
  {
    if declarations != [] {
      var n := |declarations| - 1;
      var init, last := declarations[..n], declarations[n];
      assert DistinctProperties(init);
      RegisteredKeys(init);
      FreshRegistryKey(init, last.propertyKey);
      var b0 := Registered(init);
      DecorateKeys(b0, last.propertyKey, last.options);
      LayoutStep(Registered(declarations).keys, b0.keys, RegistryKeys(init), RegistryKeys(declarations),
                 POLYMORPHIC_OPTIONS, RegistryKey(last.propertyKey));
    }
  }

  /** The list algebra of one decoration step. */
  lemma LayoutStep<T>(after: seq<T>, before: seq<T>, keys: seq<T>, keys': seq<T>, marker: T, k: T)
    requires before == (if keys == [] then [] else [marker] + keys)
    requires after == (if before == [] then [marker] else before) + [k]
    requires keys' == keys + [k]
    ensures after == [marker] + keys'
  {
  }

  /** Each declared property's registry key holds its own descriptor. */
  lemma {:induction false} RegisteredValues(declarations: seq<Declaration>)
    requires DistinctProperties(declarations)
    ensures declarations != [] ==> Registered(declarations).Get(POLYMORPHIC_OPTIONS) == Plain(Bool(true))
    ensures forall i :: 0 <= i < |declarations| ==>
              Registered(declarations).Get(RegistryKey(declarations[i].propertyKey))
              == Descriptor(declarations[i].propertyKey, declarations[i].options)
    decreases |declarations|
  {
    if declarations != [] {
      var n := |declarations| - 1;
      var init := declarations[..n];
      var last := declarations[n];
      RegisteredValues(init);
      forall i | 0 <= i < n
        ensures Registered(declarations).Get(RegistryKey(declarations[i].propertyKey))
                == Descriptor(declarations[i].propertyKey, declarations[i].options)
      {
        assert declarations[i] == init[i];
        RegistryKeyInjective(init[i].propertyKey, last.propertyKey);
      }
    }
  }
}
