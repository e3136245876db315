/**
 * `getPolymorphicMetadata` and `isPolymorph`: reading the registered
 * association descriptors back from a class's metadata, in both revisions of
 * the repository. They differ in one test only: the current one skips a
 * prefixed key holding `null` (`data && typeof data === 'object'`), the older
 * one calls `null.classType()` and throws (`typeof data === 'object'`).
 */
module PolymorphicMetadata {
  import opened Wrappers
  import opened JsValues
  import opened Seqs
  import opened Errors
  import opened PolymorphicInterface
  import opened Decorators

  /** `key.split(POLYMORPHIC_KEY_SEPARATOR)[0] === POLYMORPHIC_OPTIONS`. */
  predicate Prefixed(key: string)
  {
    FirstSegment(key, POLYMORPHIC_KEY_SEPARATOR) == POLYMORPHIC_OPTIONS
  }

  /** A key whose value is read back as a descriptor. */
  predicate Kept(bag: MetadataBag, key: string)
  {
    Prefixed(key) && bag.Get(key).Descriptor?
  }

  /** Which revision reads the metadata. */
  datatype Revision = Current | Older

  /**
   * A prefixed key holding some other object: `data.classType` is then not a
   * function, or `data` is `null`, and calling it throws. The current
   * revision skips `null`.
   */
  predicate Faulty(bag: MetadataBag, key: string, rev: Revision)
  {
    Prefixed(key) && bag.Get(key).Plain? && TypeofObject(bag.Get(key).value)
    && (rev == Older || Truthy(bag.Get(key).value))
  }

  /** What calling `data.classType()` on a value without one throws. */
  const NotCallable := TypeError("data.classType is not a function")

  /** `Kept` of `bag`, as the test `filter` applies. */
  function KeptIn(bag: MetadataBag): string -> bool
  {
    k => Kept(bag, k)
  }

  /** The kept keys of `keys`, in key order. */
  function KeptKeys(bag: MetadataBag, keys: seq<string>): (ks: seq<string>)
    ensures forall k :: k in ks <==> k in keys && Kept(bag, k)
  {
    Filter(keys, KeptIn(bag))
  }

  /**
   * The kept keys are the keys at the indices holding a kept key, in index
   * order, and a kept key occurs as often as in `keys`.
   */
  lemma KeptKeysInOrder(bag: MetadataBag, keys: seq<string>)
    ensures var ps := Passing(keys, KeptIn(bag));
            (forall i :: i in ps <==> 0 <= i < |keys| && Kept(bag, keys[i]))
            && (forall a, b :: 0 <= a < b < |ps| ==> ps[a] < ps[b])
            && |KeptKeys(bag, keys)| == |ps|
            && forall j :: 0 <= j < |ps| ==> KeptKeys(bag, keys)[j] == keys[ps[j]]
    ensures forall k :: multiset(KeptKeys(bag, keys))[k] == if Kept(bag, k) then multiset(keys)[k] else 0
  {
    FilterOrder(keys, KeptIn(bag));
    FilterCount(keys, KeptIn(bag));
  }

  /** One more key adds itself to the kept keys when it is kept, and nothing otherwise. */
  lemma KeptKeysSnoc(bag: MetadataBag, keys: seq<string>)
    requires keys != []
    ensures var n := |keys| - 1;
            KeptKeys(bag, keys) == KeptKeys(bag, keys[..n]) + (if Kept(bag, keys[n]) then [keys[n]] else [])
  {
  }

  /** The descriptor under a kept key, with its class type resolved. */
  function Read(bag: MetadataBag, key: string): Metadata
    requires Kept(bag, key)
  {
    Resolve(bag.Get(key).propertyKey, bag.Get(key).options)
  }

  /** The descriptors under `keys`, each with its class type resolved. */
  function ResolveAll(bag: MetadataBag, keys: seq<string>): (ms: seq<Metadata>)
    requires forall i :: 0 <= i < |keys| ==> Kept(bag, keys[i])
    ensures |ms| == |keys|
    ensures forall i :: 0 <= i < |keys| ==> ms[i] == Read(bag, keys[i])
  {
    seq(|keys|, i requires 0 <= i < |keys| => Read(bag, keys[i]))
  }

  /**
   * The `reduce` over the metadata keys: prefixed keys holding a descriptor
   * are resolved in key order, everything else is skipped, and the first
   * prefixed key holding any other object throws.
   */
  function Collect(bag: MetadataBag, keys: seq<string>, rev: Revision): (r: Result<seq<Metadata>, Error>)
    ensures r.Err? <==> exists k :: k in keys && Faulty(bag, k, rev)
    ensures r.Err? ==> r.error == NotCallable
    ensures r.Ok? ==> r.value == ResolveAll(bag, KeptKeys(bag, keys))
    decreases |keys|
  {
    if keys == [] then Ok([])
    else
      var init, key := keys[..|keys| - 1], keys[|keys| - 1];
      assert forall k :: k in keys <==> k in init || k == key;
      var acc :- Collect(bag, init, rev);
      var data := bag.Get(key);
      KeptKeysSnoc(bag, keys);
      if !Prefixed(key) then Ok(acc)
      else if data.Descriptor? then
        Ok(acc + [Read(bag, key)])
      else if TypeofObject(data.value) && (rev == Older || Truthy(data.value)) then
        assert Faulty(bag, key, rev);
        Err(NotCallable)
      else Ok(acc)
  }

  /** `getPolymorphicMetadata()` over the metadata of the repository's entity class. */
  function GetPolymorphicMetadata(bag: MetadataBag): (r: Result<seq<Metadata>, Error>)
    ensures r.Err? <==> exists k :: k in bag.keys && Faulty(bag, k, Current)
    ensures r.Ok? ==> r.value == ResolveAll(bag, KeptKeys(bag, bag.keys))
  {
    Collect(bag, bag.keys, Current)
  }

  /**
   * The older revision's `getPolymorphicMetadata()`: filter the prefixed keys,
   * map each object value to its resolved descriptor, drop the `undefined`s.
   */
  function OlderGetPolymorphicMetadata(bag: MetadataBag): (r: Result<seq<Metadata>, Error>)
    ensures r.Err? <==> exists k :: k in bag.keys && Faulty(bag, k, Older)
    ensures r.Ok? ==> r.value == ResolveAll(bag, KeptKeys(bag, bag.keys))
  {
    Collect(bag, bag.keys, Older)
  }

  /**
   * The two revisions read the same descriptors unless a prefixed key holds
   * `null`, which only the older one trips over.
   */
  lemma RevisionsAgree(bag: MetadataBag)
    ensures OlderGetPolymorphicMetadata(bag).Ok? ==> GetPolymorphicMetadata(bag) == OlderGetPolymorphicMetadata(bag)
    ensures (forall k :: k in bag.keys && Prefixed(k) ==> bag.Get(k) != Plain(Null))
            ==> GetPolymorphicMetadata(bag) == OlderGetPolymorphicMetadata(bag)
  {
    assert forall k :: Faulty(bag, k, Current) ==> Faulty(bag, k, Older);
    if forall k :: k in bag.keys && Prefixed(k) ==> bag.Get(k) != Plain(Null) {
      assert forall k :: k in bag.keys ==> (Faulty(bag, k, Current) <==> Faulty(bag, k, Older));
    }
  }

  /** `isPolymorph()`: the class itself carries the marker key. */
  predicate IsPolymorph(bag: MetadataBag)
  {
    POLYMORPHIC_OPTIONS in bag.values
  }

  /** A class is polymorphic exactly when at least one of its properties was decorated. */
  lemma RegisteredIsPolymorph(declarations: seq<Declaration>)
    ensures IsPolymorph(Registered(declarations)) <==> declarations != []
  {
    if declarations != [] {
      RegisteredValues([declarations[|declarations| - 1]]);
    }
  }

  /**
   * The metadata of a decorated class: the marker key first, holding `true`,
   * then keys that all hold descriptors.
   */
  lemma ReadLayout(bag: MetadataBag, rks: seq<string>, rev: Revision)
    requires bag.keys == [POLYMORPHIC_OPTIONS] + rks
    requires bag.Get(POLYMORPHIC_OPTIONS) == Plain(Bool(true))
    requires forall i :: 0 <= i < |rks| ==> Kept(bag, rks[i])
    ensures Collect(bag, bag.keys, rev) == Ok(ResolveAll(bag, rks))
  {
    LayoutClean(bag, rks, rev);
    LayoutKept(bag, rks);
  }

  /** No key of that layout makes the `reduce` throw. */
  lemma LayoutClean(bag: MetadataBag, rks: seq<string>, rev: Revision)
    requires bag.keys == [POLYMORPHIC_OPTIONS] + rks
    requires bag.Get(POLYMORPHIC_OPTIONS) == Plain(Bool(true))
    requires forall i :: 0 <= i < |rks| ==> Kept(bag, rks[i])
    ensures forall k :: k in bag.keys ==> !Faulty(bag, k, rev)
  {
    forall k | k in bag.keys ensures !Faulty(bag, k, rev) {
      if k != POLYMORPHIC_OPTIONS {
        assert k in rks;
      }
    }
  }

  /** The kept keys of that layout are the descriptor keys. */
  lemma LayoutKept(bag: MetadataBag, rks: seq<string>)
    requires bag.keys == [POLYMORPHIC_OPTIONS] + rks
    requires bag.Get(POLYMORPHIC_OPTIONS) == Plain(Bool(true))
    requires forall i :: 0 <= i < |rks| ==> Kept(bag, rks[i])
    ensures KeptKeys(bag, bag.keys) == rks
  {
    FilterAppend([POLYMORPHIC_OPTIONS], rks, KeptIn(bag));
    FilterAll(rks, KeptIn(bag));
    assert !Kept(bag, POLYMORPHIC_OPTIONS);
    assert KeptKeys(bag, [POLYMORPHIC_OPTIONS]) == [];
  }

  /** The descriptors registered for distinct properties, read in registration order. */
  lemma ReadRegistered(declarations: seq<Declaration>, rev: Revision)
    requires DistinctProperties(declarations) && declarations != []
    ensures forall i :: 0 <= i < |declarations| ==> Kept(Registered(declarations), RegistryKeys(declarations)[i])
    ensures Collect(Registered(declarations), Registered(declarations).keys, rev)
            == Ok(ResolveAll(Registered(declarations), RegistryKeys(declarations)))
  {
    var bag, rks := Registered(declarations), RegistryKeys(declarations);
    RegisteredKeys(declarations);
    RegisteredValues(declarations);
    forall i | 0 <= i < |rks| ensures Kept(bag, rks[i]) {
      RegistryKeyPrefix(declarations[i].propertyKey);
    }
    ReadLayout(bag, rks, rev);
  }

  /**
   * Reading back the metadata of a class whose distinct properties were
   * decorated gives one resolved descriptor per declaration, in declaration
   * order; the marker key is not among them. Both revisions agree.
   */
  lemma RegisterThenRead(declarations: seq<Declaration>, rev: Revision)
    requires DistinctProperties(declarations)
    ensures var r := Collect(Registered(declarations), Registered(declarations).keys, rev);
            r.Ok? && |r.value| == |declarations|
            && forall i :: 0 <= i < |declarations| ==>
                 r.value[i] == Resolve(declarations[i].propertyKey, declarations[i].options)
  {
    if declarations == [] {
      assert Collect(EmptyBag, [], rev) == Ok([]);
    } else {
      ReadRegistered(declarations, rev);
      var bag, rks := Registered(declarations), RegistryKeys(declarations);
      forall i | 0 <= i < |declarations|
        ensures ResolveAll(bag, rks)[i] == Resolve(declarations[i].propertyKey, declarations[i].options)
      {
        RegisteredValues(declarations);
      }
    }
  }

  /**
   * For a decorated class, `isPolymorph()` (the marker key) and "some
   * descriptor is read back" (the test `findOne` makes) agree.
   */
  lemma PolymorphIffDescriptors(declarations: seq<Declaration>, rev: Revision)
    requires DistinctProperties(declarations)
    ensures IsPolymorph(Registered(declarations)) <==> Collect(Registered(declarations), Registered(declarations).keys, rev) != Ok([])
  {
    RegisteredIsPolymorph(declarations);
    RegisterThenRead(declarations, rev);
  }
}
