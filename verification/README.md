# typeorm-polymorphic, modelled in Dafny

This project models the polymorphic-association layer of `typeorm-polymorphic`. The layer is a TypeORM
repository base class, `AbstractPolymorphicRepository`, plus the decorators that declare associations.
An association (a *descriptor*) lets one entity point at rows of several entity classes through a pair of
columns: a type column (`entityType` by default) and an id column (`entityId` by default).

- `@PolymorphicParent` marks a property that holds the single owner of a row.
- `@PolymorphicChildren` marks a property that holds the rows owned by an entity.
- `@PolymorphicRepository` records which entity a repository class serves.

The repository does four things with the descriptors:

- **Reading them back.** It reads the descriptors from the reflection metadata of its entity class.
- **Hydrating.** On `find`, `findOne`, `hydrateMany` and `hydrateOne` it queries every target type, keys
  the results, and writes them onto the owning entities in place.
- **Stamping.** On `save` it copies an in-memory parent's key and class name into the id and type columns,
  then issues the delete requests.
- **Creating.** On `create` it copies every descriptor's property through verbatim.

Both revisions of the repository are modelled:

- **Current revision** (`src/polymorphic.repository.ts`). It hydrates a whole batch at once and groups
  the results by a `"<type>:<id>"` key.
- **Older revision** (`polymorphic/polymorphic.repository.ts`). It hydrates row by row. Its `hasMany`
  merge duplicates rows. It also contains a cascade routine that stamps and saves child rows.

## How it is built

- **Values.** JavaScript values are a datatype (`JsValues.Value`) in which `undefined` and `null` are
  distinct. An entity's own properties are a `map<string, Value>`, and an absent key reads as `undefined`.
- **Entities.** The entities the repository mutates in place are objects of the class `Entities.Entity`,
  whose one field is that map. An entity may occur twice in one list. A pass over a list is therefore
  specified by a fold over a snapshot of the rows, keyed by object (`Entities.Run`). Lemmas then give the
  plain per-entity reading for lists without repeats.
- **The ORM.** Everything the layer takes from TypeORM and from runtime reflection is a field of
  `Locator.Env`:
  - the repository lookups;
  - `find`, `findOne` and `save`;
  - the custom-repository registrations;
  - `constructor.name`;
  - `Function.prototype.toString`.
- **The metadata store.** The reflection store is the class `Decorators.MetadataStore`. It maps each target
  to a bag of keys kept in insertion order. Redefining a key keeps its place.
- **Exceptions.** An exception becomes a `Result` error:
  - `RepositoryNotFound` for a repository that cannot be found;
  - `TypeError` for reading or setting a property of `null` or `undefined`, calling a missing
    `classType`, or indexing a missing bucket.
- **Promises.** `Promise.all` is modelled as sequential calls in index order. A rejection is the error of
  the first failing call by index (`Wrappers.MapAll`, `Wrappers.AllOutcomes`).
- **Constants.** `src/constants.ts` and the older revision's `./contstants` are not part of this model.
  The constants are taken as `POLYMORPHIC_OPTIONS = "POLYMORPHIC_OPTIONS"`,
  `POLYMORPHIC_KEY_SEPARATOR = "::"` and `POLYMORPHIC_REPOSITORY = "POLYMORPHIC_REPOSITORY"`. The older
  revision hard-codes `'::'` itself.

The model keeps these behaviours of the code as written:

- **The id column.** The id-column helper reads the undeclared option `entityTypeId`, so a configured
  `entityIdColumn` is never used. No decorator sets `entityTypeId`, so the id column of a decorated
  descriptor is always `entityId`.
- **Fixed property names.** Two places use the fixed names `entityType` and `entityId` of the owning row
  rather than the configured columns: the row filter of `findPolymorphs`, and the lookup key of
  `hydratePolymorphs`.
- **Missing buckets.** In the current revision, a to-one hydration whose key has no bucket throws.
- **Metadata faults.** Both revisions throw when a prefixed metadata key holds an object that is not a
  descriptor. Only the older revision also throws on `null`.
- **The `deleteBeforeUpdate` guard.** The guard in `deletePolymorphs` does not return, so the deletes are
  issued whatever the flag says. The flag only decides whether a missing repository rejects the save.
- **The older `hasMany` merge.** The merge is seeded with the results themselves, so every row found
  appears twice.
- **The older cascade.** A child that fails to stamp rejects inside an `async` executor. That executor then
  never resolves, so `savePolymorphs` never settles.

## Model

Source paths are relative to the repository root. `src/…` is the current revision and `polymorphic/…` the older one.

| member | source | states |
|---|---|---|
| PolymorphicInterface.Tag | src/polymorphic.interface.ts:7 | a descriptor's `type` is the string `'children'` or `'parent'` |
| PolymorphicInterface.ParseTag | src/polymorphic.interface.ts:37-47 | exactly the two spellings are tags, each reads back as the direction that prints as it, and every direction's tag reads back as that direction |
| PolymorphicInterface.Resolve | src/polymorphic.interface.ts:17-25 | the resolved descriptor has the decorated `propertyKey`, every option of the stored options unchanged and `classType` replaced by the thunk's value; the undeclared `entityTypeId` is absent |
| PolymorphicInterface.ResolveUnresolve | src/polymorphic.interface.ts:17-25 | wrapping a resolved descriptor's class type back in a thunk and resolving again gives the same descriptor |
| PolymorphicInterface.ChildRow | src/polymorphic.interface.ts:1-4 | a child reference occupies exactly the `entityId` and `entityType` columns of a row, holding its number-or-string id and its type string |
| PolymorphicInterface.AsChildRef | src/polymorphic.interface.ts:1-4 | a row reads as a child reference exactly when `entityId` is a number or string and `entityType` a string, and then the reference holds those values |
| PolymorphicInterface.ChildRefRoundTrip | src/polymorphic.interface.ts:1-4 | writing a child reference to a row and reading it back gives the same reference |
| Columns.OrDefault | src/polymorphic.repository.ts:36-41 | `configured \|\| fallback`: the configured name when it is a non-empty string, the fallback when absent or empty; never empty |
| Columns.EntityTypeColumn | src/polymorphic.repository.ts:36-37 | the type column is the configured `entityTypeColumn` when non-empty, otherwise `entityType` |
| Columns.EntityIdColumn | src/polymorphic.repository.ts:38-39 | the id column is `entityTypeId` when set and non-empty, otherwise `entityId` |
| Columns.PrimaryColumn | src/polymorphic.repository.ts:40-41 | the key column is the configured `primaryColumn` when non-empty, otherwise `id` |
| Columns.IdColumnIgnoresEntityIdColumn | src/polymorphic.repository.ts:38-39 | for every resolved descriptor the id column is `entityId`, whatever `entityIdColumn` is configured to |
| Columns.IsChildren | src/polymorphic.repository.ts:100-104 | `isChildren` holds exactly for a `'children'` descriptor |
| Columns.IsParent | src/polymorphic.repository.ts:106-110 | `isParent` holds exactly for a `'parent'` descriptor, exactly when `isChildren` does not |
| Columns.ClassTypes | src/polymorphic.repository.ts:163-165 | helper mirroring the expression: a list of class types is queried as it is, a single class type as a one-element list; its property is stated by `Hydration.TargetTypes` |
| JsValues.Prop | src/polymorphic.repository.ts:316 | reading a property throws exactly on `null` and `undefined`; on an object it gives the property, `undefined` when absent |
| JsValues.ConstructorName | src/polymorphic.repository.ts:199 | `constructor.name` throws exactly on `null` and `undefined` and gives the class's name for an object |
| JsValues.SpreadMembers | src/polymorphic.repository.ts:180-187 | one level of flattening holds exactly the array results' elements and the other results; without arrays it changes nothing |
| JsValues.SpreadAppend | src/polymorphic.repository.ts:180-187 | flattening distributes over concatenation |
| JsValues.FirstSegment | src/polymorphic.repository.ts:70 | `key.split(sep)[0]` is a prefix of the key |
| JsValues.FirstSegmentBeforeSeparator | src/polymorphic.repository.ts:70 | a key made of a separator-free text, the separator and a rest splits back to that text |
| JsValues.FirstSegmentWithoutSeparator | src/polymorphic.repository.ts:70 | a key without the separator is its own first segment |
| Decorators.MetadataBag.Define | src/decorators.ts:14-22 | `defineMetadata` sets the key, leaves every other key, keeps the key's place when it exists and appends it otherwise |
| Decorators.MetadataStore.DefineMetadata | src/decorators.ts:14-22 | defining a key on a target replaces that target's bag by the bag with the key defined; other targets are untouched |
| Decorators.RegistryKey | src/decorators.ts:16 | a registry key is longer than the marker key and differs from it |
| Decorators.RegistryKeyInjective | src/decorators.ts:16 | distinct property names give distinct registry keys |
| Decorators.RegistryKeyPrefix | src/polymorphic.repository.ts:70 | a registry key, and the bare marker key, both split back to `POLYMORPHIC_OPTIONS` |
| Decorators.ChildrenOptions | src/decorators.ts:25-37 | `PolymorphicChildren` is type `children` with `hasMany`, `eager` and `cascade` on and `deleteBeforeUpdate` off by default; every option the caller gives overrides its default; column names are the caller's |
| Decorators.ParentOptions | src/decorators.ts:39-51 | `PolymorphicParent` has the same defaults and overrides as `PolymorphicChildren` except type `parent` and `hasMany` off |
| Decorators.DecorateBag | src/decorators.ts:13-22 | decorating property p sets the marker key to `true` and p's registry key to `{propertyKey: p, ...options}`; no other key changes |
| Decorators.ReRegisterOverwrites | src/decorators.ts:15-22 | decorating the same property twice leaves what the second decoration alone leaves |
| Decorators.DecorateProperty | src/decorators.ts:11-23 | the property decorator changes only the prototype's bag, to the decorated bag |
| Decorators.PolymorphicRepository | src/decorators.ts:53-62 | the entity is recorded under the repository key on `descriptor.value` and the descriptor returned when one is supplied, otherwise on the target and the target returned |
| Decorators.Registered | src/decorators.ts:13-22 | the metadata left by a sequence of decorations has no repeated key and a value for each key |
| Decorators.DecorateKeys | src/decorators.ts:14-16 | a fresh decoration appends the marker key (first time only) and then the new registry key |
| Decorators.FreshRegistryKey | src/decorators.ts:16 | a property not yet decorated has a registry key not yet used |
| Decorators.RegisteredKeys | src/decorators.ts:13-22 | after decorating distinct properties the keys are the marker followed by each property's registry key in decoration order |
| Decorators.RegisteredValues | src/decorators.ts:13-22 | after decorating distinct properties the marker holds `true` and each registry key holds its own descriptor |
| PolymorphicMetadata.KeptKeys | src/polymorphic.repository.ts:70-78 | the kept keys are exactly the keys with the options prefix that hold a descriptor (their order and count: `KeptKeysInOrder`) |
| PolymorphicMetadata.KeptKeysInOrder | src/polymorphic.repository.ts:68-78 | the kept keys are the keys at the indices holding a kept key, in increasing index order, and each kept key occurs as often as in the key list |
| PolymorphicMetadata.ResolveAll | src/polymorphic.repository.ts:79-83 | each kept key gives its descriptor with `classType` resolved, in key order |
| PolymorphicMetadata.Collect | src/polymorphic.repository.ts:68-90 | the key `reduce` throws exactly when a prefixed key holds a non-descriptor object (`null` included for the older revision) and otherwise gives the kept keys' resolved descriptors in key order |
| PolymorphicMetadata.GetPolymorphicMetadata | src/polymorphic.repository.ts:59-91 | the current `getPolymorphicMetadata` throws exactly on a prefixed key holding a truthy non-descriptor object and otherwise reads every descriptor in key order |
| PolymorphicMetadata.OlderGetPolymorphicMetadata | polymorphic/polymorphic.repository.ts:37-75 | the older `getPolymorphicMetadata` throws exactly on a prefixed key holding any non-descriptor object, `null` included, and otherwise reads every descriptor in key order |
| PolymorphicMetadata.RevisionsAgree | polymorphic/polymorphic.repository.ts:65 | the revisions read the same descriptors whenever the older one succeeds, and always when no prefixed key holds `null` |
| PolymorphicMetadata.RegisteredIsPolymorph | src/polymorphic.repository.ts:93-98 | a class is polymorphic exactly when at least one property was decorated |
| PolymorphicMetadata.ReadLayout | src/polymorphic.repository.ts:68-90 | metadata made of the `true` marker followed by descriptor keys reads back as those descriptors; the marker is dropped |
| PolymorphicMetadata.ReadRegistered | src/polymorphic.repository.ts:68-90 | the metadata of distinct decorations reads back as the descriptors under their registry keys |
| PolymorphicMetadata.RegisterThenRead | src/polymorphic.repository.ts:59-91 | decorating distinct properties and reading back gives one resolved descriptor per decoration, in decoration order, in both revisions |
| PolymorphicMetadata.PolymorphIffDescriptors | src/polymorphic.repository.ts:93-98 | for a decorated class, `isPolymorph()` (the test of `find`) holds exactly when some descriptor is read back (the test of `findOne`) |
| Locator.ResolveRepositoryToken | src/polymorphic.repository.ts:272-277 | the token resolves to the repository class of the first registration for it, or to itself when there is none |
| Locator.FindRepository | src/polymorphic.repository.ts:255-270 | a token that resolves to itself uses the default repository, and is found exactly when that repository exists; a redirected one uses the custom repository; nothing found raises `RepositoryNotFoundException` carrying the resolved token |
| Queries.Column | src/polymorphic.repository.ts:243 | helper mirroring the expression `rows.map(p => p[column])`, position by position; used by `Queries.BuildQuery` |
| Queries.Matching | src/polymorphic.repository.ts:232-234 | the filtered rows are exactly those whose own `entityType` equals the target's text (their order and count: `MatchingInOrder`) |
| Queries.MatchingInOrder | src/polymorphic.repository.ts:232-237 | the filter keeps the rows at exactly the indices whose row has the type, in increasing index order, each as often as the input holds it; so `length > 1` counts matching owning rows with repeats |
| Queries.BuildQuery | src/polymorphic.repository.ts:222-253 | lookup failure propagates; a nullish target throws once there are rows; `find` exactly when `hasMany` or more than one row matched; parent criteria `primary In(ids of matching rows)`; children criteria `id In(primary keys of matching rows)` and `type = entityType` |
| Queries.Execute | src/polymorphic.repository.ts:238 | helper mirroring the call: `find` returns all found rows as an array, `findOne` the single answer; used by `Queries.FindPolymorphs` |
| Queries.FindPolymorphs | src/polymorphic.repository.ts:222-253 | `findPolymorphs` fails exactly when its query cannot be built and otherwise runs that query |
| Queries.RowFilterIgnoresTypeColumn | src/polymorphic.repository.ts:232-234 | for a parent, the configured type column changes neither the method nor the criteria |
| Queries.ForeignRowsIgnored | src/polymorphic.repository.ts:231-234 | an owning row of another type contributes nothing to the query |
| Grouping.GroupSpec | src/polymorphic.repository.ts:189-213 | a key has a bucket exactly when some result carries it, and the bucket holds exactly those results in result order |
| Grouping.GroupSnoc | src/polymorphic.repository.ts:210-211 | grouping one more result pushes it onto the end of its key's bucket |
| Grouping.GroupSizes | src/polymorphic.repository.ts:189-213 | over the distinct keys the bucket sizes add up to the number of results |
| Grouping.GroupPartition | src/polymorphic.repository.ts:189-213 | every result lands in the bucket of its own key and in no other |
| Grouping.GroupBy | src/polymorphic.repository.ts:189-213 | the keyed `reduce` gives the grouping of the results under their keys, or the first key computation's exception |
| Hydration.TargetTypes | src/polymorphic.repository.ts:160-165 | a parent queries the distinct type-column values of the rows, each once (and exactly those), in first-seen order; children query the declared class types |
| Hydration.Lookups | src/polymorphic.repository.ts:168-172 | one `findPolymorphs` per target type, in order; the first failure rejects |
| Hydration.KeyOf | src/polymorphic.repository.ts:195-208 | a result (an array by its first element) is keyed `Class:primary` for parents and `type:id` from its own configured columns for children; a nullish head throws |
| Hydration.KeysOf | src/polymorphic.repository.ts:189-213 | every result's key in order, or the first key's exception |
| Hydration.HydrationPartition | src/polymorphic.repository.ts:178-213 | the key map partitions the flattened results: each in its own key's bucket, buckets in result order, sizes summing to the number of results |
| Hydration.Flatten | src/polymorphic.repository.ts:180-187 | the first `reduce` flattens the results one level |
| Hydration.HydrateEntities | src/polymorphic.repository.ts:155-220 | `hydrateEntities` computes the hydration of the descriptor (lookups, flatten, group) |
| Hydration.Hydrations | src/polymorphic.repository.ts:126-130 | one hydration per descriptor, in order; the first failing descriptor rejects |
| Hydration.Assigned | src/polymorphic.repository.ts:137-139 | with `hasMany` the whole bucket (`undefined` if absent) is assigned; otherwise the bucket's first element, and an absent bucket throws |
| Hydration.HydrateStep | src/polymorphic.repository.ts:135-144 | one step sets only the descriptor's property, to the value selected by the row's `entityType:entityId`, or throws leaving the row |
| Hydration.HydrateRowFrame | src/polymorphic.repository.ts:133-150 | hydrating a row sets no property other than the descriptors' own |
| Hydration.HydrateRowAssigns | src/polymorphic.repository.ts:133-150 | with distinct descriptor properties, hydration succeeds exactly when every descriptor can answer the row's key, and each property then holds that answer |
| Hydration.HydrateAll | src/polymorphic.repository.ts:126-130 | the hydrations of all descriptors, or the first failure |
| Hydration.HydrateObject | src/polymorphic.repository.ts:134-147 | the per-entity `reduce` rewrites the entity in place to the hydrated row and reports the exception that ended it |
| Hydration.HydrateInPlace | src/polymorphic.repository.ts:132-152 | the entities are rewritten in list order, the first exception ends the pass, and on success the same entities come back in the same order and number |
| Hydration.HydratePolymorphs | src/polymorphic.repository.ts:122-153 | a failing lookup rejects before any entity is written; otherwise the in-place pass above, from the entry rows |
| Hydration.HydrateMany | src/polymorphic.repository.ts:112-115 | `hydrateMany` reads the descriptors (a fault rejects and writes nothing) and hydrates with them |
| Hydration.HydrateSingle | src/polymorphic.repository.ts:117-120 | hydrating one entity applies the per-entity `reduce` to the hydrations computed from its own row and returns that entity |
| Hydration.HydrateOne | src/polymorphic.repository.ts:117-120 | `hydrateOne` is `hydrateMany([entity])[0]` |
| Hydration.Find | src/polymorphic.repository.ts:385-395 | a class with no polymorphic property gets the found entities back untouched; otherwise they are hydrated |
| Hydration.FindOne | src/polymorphic.repository.ts:397-412 | with no descriptors, or nothing found, the ORM's answer is returned as it is; a found entity is hydrated alone |
| Entities.RunFrame | src/polymorphic.repository.ts:133-150 | a pass over a list leaves entities outside it alone |
| Entities.RunAgree | src/polymorphic.repository.ts:133-150 | a pass reads only the rows of the entities in its list |
| Entities.RunStops | src/polymorphic.repository.ts:133-150 | once the pass fails, the rest of the list is not visited |
| Entities.RunClean | src/polymorphic.repository.ts:133-150 | without repeats and failures, every entity holds the rewrite of its own starting row |
| Entities.RunFailsAt | src/polymorphic.repository.ts:133-150 | without repeats, the first failing entity's exception ends the pass: earlier entities are rewritten, it holds its partial row, later ones are untouched |
| Entities.ChainStops | src/polymorphic.repository.ts:134-146 | once a per-entity `reduce` step throws, later steps are not applied |
| Entities.RunSingle | src/polymorphic.repository.ts:117-120 | a pass over one entity rewrites it once |
| Persistence.StampOne | src/polymorphic.repository.ts:316-330 | an entity with a truthy parent and an id column `=== undefined` gets the parent's primary key as id and its class name as type, nothing else changes; any other entity is unchanged |
| Persistence.ChildrenNeverStamp | src/polymorphic.repository.ts:310-311 | children descriptors never stamp |
| Persistence.DefinedIdsKept | src/polymorphic.repository.ts:318-320 | a row whose id columns are defined (`null` included) is never overwritten |
| Persistence.StampRunClean | src/polymorphic.repository.ts:315-331 | a stamping pass never throws |
| Persistence.StampAllDistinct | src/polymorphic.repository.ts:310-333 | without repeated entities, each ends up as its own row stamped by every descriptor in order |
| Persistence.StampPass | src/polymorphic.repository.ts:312-331 | one descriptor's pass stamps every entity in place in list order |
| Persistence.StampParents | src/polymorphic.repository.ts:310-333 | the stamping of `save`: each descriptor in turn passes over the entities in place |
| Persistence.ChildrenPassIsIdentity | src/polymorphic.repository.ts:311 | a children descriptor's pass leaves every entity as it was |
| Persistence.DeleteCriteria | src/polymorphic.repository.ts:373-376 | a delete filters on the type column equal to the declared type and the id column equal to the entity's primary key; the id column wins on a name clash |
| Persistence.RepoLookups | src/polymorphic.repository.ts:370-371 | helper mirroring the `map`: the repository of each declared type, in order; used by `Persistence.TypeDeletes` |
| Persistence.TypeDeletes | src/polymorphic.repository.ts:368-379 | one delete per declared type in order until the first type whose repository is missing, whose exception ends the executor |
| Persistence.OptionDeletesIgnoreFlag | src/polymorphic.repository.ts:358-380 | turning `deleteBeforeUpdate` off issues the same deletes and never rejects |
| Persistence.EntityDeletesIgnoreFlag | src/polymorphic.repository.ts:355-382 | for one entity, all flags off issue the same deletes and never reject |
| Persistence.DeletesIgnoreFlag | src/polymorphic.repository.ts:338-344 | for the whole batch, the flags decide only whether a missing repository rejects, not which deletes are issued |
| Persistence.Save | src/polymorphic.repository.ts:298-349 | a non-polymorphic class passes straight through untouched; a metadata fault rejects before anything changes; otherwise the parents are stamped in place and the deletes computed from the stamped rows are issued, and the save is delegated unless one rejected |
| Persistence.CopyThroughValues | src/polymorphic.repository.ts:428-431 | each descriptor's property holds the input's value verbatim; every other property keeps what the ORM's `create` gave it |
| Persistence.CopyProperties | src/polymorphic.repository.ts:428-431 | the `forEach` copies each descriptor's property onto the entity; a missing input with descriptors throws before anything is written |
| Persistence.Create | src/polymorphic.repository.ts:420-434 | `create` reads the descriptors (a fault throws), then copies through; the result is the created entity |
| LegacyRepository.LegacyCriteria | polymorphic/polymorphic.repository.ts:167-172 | the older criteria: id column equal to the owning row's primary key and type column equal to the target type, the type column winning on a clash |
| LegacyRepository.LegacyFindPolymorphsSpec | polymorphic/polymorphic.repository.ts:160-173 | the older lookup fails exactly when the repository is missing, runs `find` (an array) with `hasMany` and `findOne` otherwise |
| LegacyRepository.LegacyLookupsArrays | polymorphic/polymorphic.repository.ts:136-140 | with `hasMany`, every lookup result is an array |
| LegacyRepository.RevConcatFlat | polymorphic/polymorphic.repository.ts:149-155 | the rows gathered by the merge contain no arrays when no found row is an array |
| LegacyRepository.MergeShape | polymorphic/polymorphic.repository.ts:145-156 | after n steps the merge holds the first n results' rows, last first, followed by every result's rows once more |
| LegacyRepository.MergeOneType | polymorphic/polymorphic.repository.ts:145-156 | one target type gives r0 ++ r0 |
| LegacyRepository.MergeTwoTypes | polymorphic/polymorphic.repository.ts:145-156 | two target types give r1 ++ r0 ++ r0 ++ r1 |
| LegacyRepository.MergeDuplicates | polymorphic/polymorphic.repository.ts:145-156 | the merge holds every found row exactly twice as often as the results do |
| LegacyRepository.RevConcatSpread | polymorphic/polymorphic.repository.ts:149-155 | the reversed concatenation holds the same rows as the results |
| LegacyRepository.LegacyHasManyDuplicates | polymorphic/polymorphic.repository.ts:142-157 | a `hasMany` hydration value holds every found row twice |
| LegacyRepository.FirstPresentSpec | polymorphic/polymorphic.repository.ts:116-124 | a parent property receives the first result that is neither `undefined` nor `null`, in `classType` order, or `undefined` when there is none |
| LegacyRepository.LegacyAssignFrame | polymorphic/polymorphic.repository.ts:116-124 | the assignment leaves every property that is no descriptor's key as it was |
| LegacyRepository.LegacyAssignAt | polymorphic/polymorphic.repository.ts:116-124 | the last record of a key decides that property's value |
| LegacyRepository.LegacyAssignIdempotent | polymorphic/polymorphic.repository.ts:116-124 | assigning the same records twice is assigning them once |
| LegacyRepository.LegacyAssignKeys | polymorphic/polymorphic.repository.ts:121-123 | the assignment adds exactly the records' keys to the row |
| LegacyRepository.ApplyHydrations | polymorphic/polymorphic.repository.ts:116-124 | the `reduce` assigns the records on the entity itself, in order |
| LegacyRepository.LegacyHydratePolymorphs | polymorphic/polymorphic.repository.ts:106-125 | a failing lookup rejects with the entity untouched; otherwise the entity is hydrated in place and returned |
| LegacyRepository.ApplyAll | polymorphic/polymorphic.repository.ts:96-98 | each entity whose lookups succeeded has its records assigned; an entity listed twice ends up assigned once over |
| LegacyRepository.LegacyHydrateRows | polymorphic/polymorphic.repository.ts:96-98 | each row is hydrated from its own entry row alone; the call rejects with the first failure in list order and otherwise returns the same entities |
| LegacyRepository.HydrateRowsWith | polymorphic/polymorphic.repository.ts:96-98 | the same, for any per-row computation of the records |
| LegacyRepository.LegacyHydrateMany | polymorphic/polymorphic.repository.ts:96-104 | the older `hydrateMany`: a metadata fault rejects with nothing written; otherwise every row hydrated independently |
| LegacyRepository.LegacyHydrateOne | polymorphic/polymorphic.repository.ts:100-104 | the older `hydrateOne`: descriptors, then `hydratePolymorphs` |
| LegacyRepository.LegacyFind | polymorphic/polymorphic.repository.ts:379-394 | a non-polymorphic class gets the found entities untouched; otherwise each is hydrated |
| LegacyRepository.LegacyFindOne | polymorphic/polymorphic.repository.ts:408-454 | with no descriptors or nothing found the ORM's answer is returned as it is; a found entity is hydrated |
| LegacyRepository.LegacySave | polymorphic/polymorphic.repository.ts:314-360 | the older `save`: pass-through for a non-polymorphic class, otherwise the same non-overwriting parent stamping, and no deletes |
| LegacyRepository.StampChild | polymorphic/polymorphic.repository.ts:191-199 | a child object gets the owner's id-column value (not its primary key) as id and the owner's target name as type; setting properties on a nullish or primitive child throws |
| LegacyRepository.StampChildren | polymorphic/polymorphic.repository.ts:188-196 | the children are stamped in order until the first that throws |
| LegacyRepository.SavePolymorhic | polymorphic/polymorphic.repository.ts:175-202 | a falsy property saves nothing and gives `undefined`; an array succeeds exactly when every child can be stamped, then each stamped child is saved and the saved children are the result, otherwise the first unstampable child's `TypeError` is raised; a single child is stamped, saved and returned, or its `TypeError` raised with nothing saved |
| LegacyRepository.CascadeCalls | polymorphic/polymorphic.repository.ts:208-220 | helper mirroring the `metadata.map(...)` expression: one call per descriptor from the entry row; the property is stated by `LegacyRepository.SavePolymorphs` |
| LegacyRepository.CascadeTouchesOnlyCascadeKeys | polymorphic/polymorphic.repository.ts:222-233 | only cascade descriptors' properties are written back; every other property keeps its value |
| LegacyRepository.PlanFailedPrefix | polymorphic/polymorphic.repository.ts:208-233 | a failure among the first calls is a failure of the whole |
| LegacyRepository.CascadeWritesResult | polymorphic/polymorphic.repository.ts:222-233 | without a failure, the last cascade descriptor of a key leaves that key holding its call's result |
| LegacyRepository.SavePolymorphs | polymorphic/polymorphic.repository.ts:204-236 | all calls read the entry row; if all succeed each result is written back in descriptor order; a failure means the call never settles and nothing is written |
| LegacyRepository.WriteBack | polymorphic/polymorphic.repository.ts:222-235 | the `forEach` write-back of the settled results onto the entity, in descriptor order |
| Wrappers.MapAll | src/polymorphic.repository.ts:126-130 | `Promise.all` of calls in index order: all values when every call succeeds, otherwise the first failure |
| Wrappers.MapAllFirstError | src/polymorphic.repository.ts:126-130 | the error of the whole is the one of the first failing call |
| Wrappers.AllOutcomes | polymorphic/polymorphic.repository.ts:97 | every call is made; each outcome is recorded and the whole rejects with the first failure by index |
| Scenarios.AdvertOwnerDescriptor | src/__tests__/entities/advert.entity.ts:12-15 | the advert's `owner` reads back as a single parent over user, merchant and admin with every column at its default |
| Scenarios.MerchantColumns | src/__tests__/entities/merchant.entity.ts:15-20 | `createdAdverts` uses type column `creatorType` but id column `entityId`, not the configured `creatorId` |
| Scenarios.MerchantDescriptors | src/__tests__/entities/merchant.entity.ts:10-20 | the merchant's two associations read back in declaration order |
| Scenarios.AdminLookupCriteria | src/__tests__/entities/admin.entity.ts:10-14 | an admin's adverts are looked up by `entityId = admin_id` and `entityType = AdminEntity` |
| Scenarios.StampAdvertOwner | src/polymorphic.repository.ts:318-329 | saving an advert owned by a user `{ id }` with no `entityId` stamps `entityId := id` and `entityType :=` the user class's name |
| Scenarios.NullIdNotStamped | src/polymorphic.repository.ts:318 | an advert whose `entityId` is `null` is not stamped |
| Scenarios.CanCreate | src/__tests__/polymorphic.repository.spec.ts:36-41 | `create({ owner: user })` on the advert repository gives the created entity with that very user as its owner |
| Scenarios.OwnerCopied | src/__tests__/polymorphic.repository.spec.ts:36-41 | the copy-through of `create({ owner: user })` sets `owner` to the user and keeps everything else as created |

## Left out

- TypeORM itself (`super.find`, `super.findOne`, `super.save`, `super.create`, `repository.delete`, the manager's repository lookups, `getMetadataArgsStorage`) is a set of given functions in `Locator.Env`, or of given inputs: the found entities and the entity the ORM's `create` built.
- Asynchrony: `Promise.all` is sequentialised, and the first failure by index is the rejection. Real interleavings, and which failure wins in time, are not modelled.
- The delete requests of `save` are not awaited in the source. The model lists which deletes are issued and in which order they are built, and claims nothing about when they run relative to the ORM's `save`.
- Persistence.Save: only the delete requests are recorded. The ORM's `save` result is not modelled; `Delegated` only says that the call was handed on.
- `createRepository` (wiring through `DataSource`) is not modelled.
- The overload signatures, and the argument juggling of the older `findOne`/`save` (which `super` overload is called), are not modelled. The single-entity forms of `save` are modelled as a one-element list.
- `create` with an array of inputs is not modelled. Only one input is modelled; the array overload would copy properties from the array object itself.
- The older revision's `create` is the current one with the older metadata reader (`Persistence.Create` with `Older`).
- The older revision's dead code is left out: the commented-out cascade in `save`, the unused `deletePolymorphs`, and the `console.log` in `find`.
- LegacyRepository.StampChild: a stamp on a class or array child (which JavaScript would store as a property of that object) is not represented. Such a child is passed to `save` unchanged.
- Hydration.Assigned, Hydration.HydrateStep, Hydration.TargetTypes, LegacyRepository.AssignedValue: found rows are immutable values. In the source every owning entity with the same `entityType:entityId` key receives the same bucket array or the same parent object, so a later `push` on one shows on the other; the model gives each an equal but unshared value. `new Set` removes duplicate object-valued type columns by identity, the model (`Seqs.Distinct`) by structural equality.
- Decorators.ChildrenOptions, Decorators.ParentOptions: an option passed explicitly as `undefined` (`{ hasMany: undefined }`) is treated as absent and gets its default. In the source the spread overwrites the default with `undefined`, which is falsy, for `hasMany`, `eager`, `cascade` and `deleteBeforeUpdate`. The flags are booleans in the model.
- JsValues.Prop: a property read on a string, array or class (other than `null`/`undefined`) gives `undefined`. JavaScript gives `length` on strings and arrays, and `name`, `length` and static members on classes, so a class-valued parent with a static `id` is stamped differently.
- LegacyRepository.SavePolymorhic: cascade children are immutable values. Their in-place stamping shows only in the values handed to `save` and in the results written back, not in aliases held elsewhere.
- The message text of `RepositoryNotFoundException` and of TypeErrors is not modelled; only the error kind and the resolved token are.
- Numbers are integers; floating point and `NaN` (which `new Set` and `===` treat specially) are left out. A class's `toString()` and `constructor.name` come from the environment.
- Reflect metadata inherited through the prototype chain is not modelled: the bag read is the class's own.
- `src/constants.ts` and the older revision's `./contstants` are not part of this model. Their values are taken as stated above.
- `src/repository.token.exception.ts` is represented by the `RepositoryNotFound` error variant only.
