# recoil-normalize-orm: the normalising store, in Dafny

This project models the core of recoil-normalize-orm:

- the engine `initModel` returns (src/model.ts);
- its schema registry, `ModelManager` (src/modelManager.ts).

Models are registered with a name, an id attribute and relation fields. A relation field maps a property name to the name of another model. Each model has a table, mapping the string form of an id to a record. A removed record stays in its table as the tombstone `null`.

Writing a nested payload (`set`) normalises it:

- every nested record that is not yet an id goes into its own model's table, first;
- the relation field is replaced by the id or ids that step returned;
- the record is shallow-merged into its table.

Reading (`getValue`, `getDataItemRecursively` and the deep read of `getSelectorItem`) looks ids up and replaces relation ids with the records they name, recursively.

Files and modules:

- `values.dfy` (`Values`): the payload value type and the few JavaScript semantics the code relies on:
  - truthiness;
  - property reads that throw on `null`/`undefined`;
  - object spread;
  - the string key `table[id]` uses.
- `registry.dfy` (`Registry`): the `ModelManager` class.
  - `getModelDepMap`'s closure loop is an imperative method, proved against the reachability relation of the schema.
- `normalizer.dfy` (`Normalizer`): the normaliser, stated as values.
  - A payload determines the sequence of `changeDataItemInStoreMap` calls it causes (`ItemWrites`, `ListWrites`, `FieldsWrites`, `NormalizeWrites`, `Plan`).
  - The store is the fold of those calls (`ApplyWrites`).
  - Also here: the properties of the merge and the fact that writing what is stored changes nothing.
- `store_map.dfy` (`StoreMaps`): the in-place normaliser.
  - The `StoreMap` class holds the cloned tables. Its methods `Normalize`, `NormalizeList`, `NormalizeItem`, `NormalizeFields` and `ChangeDataItem` change them step by step, as the source does.
  - Each is proved to fail exactly when the write log fails. Otherwise it returns what the log returns and leaves the tables as the log's writes leave them.
- `reader.dfy` (`Reader`): `getValue`, `getDataItemRecursively` and the deep read. Deep reads are parameterised by a rank on model names, which makes the recursion well-founded.
  - `getValue` applies its `parse` callback before it drops missing entries. That crashes the deep read of a removed child (see Findings).
  - The `ParseOrder` parameter selects between the order as written and the corrected order.
- `orm.dfy` (`Orm`): the `Engine` class, holding the registry and one table per model.
  - `createModel`'s duplicate check.
  - The updater's snapshot.
  - The `set` and `remove` bodies of a model's `useChangeData`.
  - The global `reset`.
- `roundtrip.dfy` (`RoundTrip`): writing a well-shaped nested payload (or a list of them) and deep-reading the ids returned gives the payload back.

## Model

| member | source | states |
|---|---|---|
| Values.Get | src/model.ts:214 | A property read throws exactly on `null` and `undefined`. A defined result is the object's own property. |
| Values.IntKeysInjective | src/model.ts:102 | Two integer ids with the same string key are the same id, so `id.toString()` never merges two numeric ids. |
| Registry.FieldTargets | src/modelManager.ts:19-20 | `_.values(fields)` has one entry per field: the fields' targets in field order, repeats kept. |
| Registry.PushNew | src/modelManager.ts:30-37 | One round appends to the result exactly the dependencies not yet in it, each once and in their `currDepList` order. It enqueues exactly the names it appended, and every dependency of the current name ends up in the result. |
| Registry.DeepStart | src/modelManager.ts:24-26 | Starting from `m`'s direct targets, the loop invariant holds: every listed name is reachable and nothing is expanded yet. |
| Registry.DeepStep | src/modelManager.ts:27-38 | One round keeps the invariant: the prefix is intact, names after it are distinct, and every name is reachable. It also strictly shrinks the set of schema names not yet listed, or else the queue. So the loop terminates on any schema, cyclic ones included. |
| Registry.Complete | src/modelManager.ts:27-38 | A list that starts with `m`'s direct targets, once every entry has been expanded, holds every name reachable from `m`. |
| Registry.DeepDeps | src/modelManager.ts:24-40 | The closure of `m` starts with `m`'s direct targets in field order. Names after that prefix occur once. A name is in it exactly when it is reachable from `m`. |
| Registry.SeedDepMap | src/modelManager.ts:17-21 | The first pass gives every registered model the list of its direct targets, and no other key. |
| Registry.SeedIsApprox | src/modelManager.ts:17-21 | The seeded map lists every direct target and only reachable names. |
| Registry.ClosingKeepsApprox | src/modelManager.ts:40 | Overwriting one entry in place with its closure keeps the map valid for the models closed after it. |
| Registry.ClosingStep | src/modelManager.ts:23-41 | Closing model `i` keeps the outer loop's invariant: models before `i+1` are closed, the rest still hold their direct targets. |
| Registry.ComputeDepMap | src/modelManager.ts:13-43 | The map has exactly the registered names as keys. Each entry is a closure as `DeepDeps` states it. |
| Registry.ModelManager.constructor | src/modelManager.ts:5-7 | A new registry has no models and no dependency map. |
| Registry.ModelManager.HasModel | src/modelManager.ts:45-47 | True exactly for registered names. |
| Registry.ModelManager.GetModel | src/modelManager.ts:49-54 | An unregistered name throws "model name not existed". Otherwise the result is the registered options. |
| Registry.ModelManager.GetDeps | src/modelManager.ts:77-82 | An unregistered name throws. Otherwise the result holds exactly the names reachable from the model, starts with its direct targets in field order, and repeats nothing after that prefix. |
| Registry.ModelManager.SetModel | src/modelManager.ts:56-64 | A registered name throws "model name existed" and leaves the registry unchanged. Otherwise the model is added last in registration order, and every model's closure is recomputed and holds again. |
| Registry.ModelManager.Traverse | src/modelManager.ts:66-70 | Visits the registered options in registration order, one per registered name. |
| Registry.TraverseOnce | src/modelManager.ts:66-70 | Corollary of `NamesMatch`, the registry invariant: every registered model is visited, and at exactly one position. |
| Registry.OwnDepIffCycle | src/modelManager.ts:27-38 | Corollary of the reachability clause of `IsDepList`: a model is among its own dependencies exactly when a reference cycle leads back to it. |
| Registry.PathLeavesRegistered | src/modelManager.ts:29 | Corollary of `Refers`: only registered models are expanded. An unregistered target can end a path but never leads further. |
| Normalizer.ChangeDataItem | src/model.ts:270-277 | Fails exactly when the model has no table. Otherwise it is a one-level merge: the new fields overwrite, old fields absent from the update stay, and merging over a tombstone or an absent entry stores exactly the new fields. Every other id, and every other table, is unchanged, and no table is added. |
| Normalizer.ApplyWrites | src/model.ts:270-277 | A sequence of merges succeeds exactly when every table it writes exists, and never adds or drops a table. |
| Normalizer.ItemWrites | src/model.ts:211-233 | With an explicit id, the record is stored under that id, whatever its `idAttr` says, and the id is returned. Without one, it is stored under and returns `record[idAttr]`. A record with no id writes nothing and returns `null`. The record's own merge is the last write. |
| Normalizer.ListIdsInOrder | src/model.ts:196-201 | `normalizeList` returns the items' ids in input order. It omits the items without an id, and those whose id is `null`; the latter are still stored, under the key `"null"`. |
| Normalizer.FieldsRewrite | src/model.ts:219-229 | On the clone, a declared relation field that held a plain object (or an array holding one) now holds what normalising it into the target model returned. Normalized-like fields keep their value: `Values.IsNormalizedLike` models `isNormalizedLike` (src/model.ts:284-289), which holds for anything but a plain object and for an array holding no plain object. Undeclared fields keep their value too. No key is added or dropped. |
| Normalizer.FieldsKeys | src/model.ts:219-229 | Rewriting relation fields keeps the clone an object with the payload's keys. |
| Normalizer.FieldsKeep | src/model.ts:219-229 | A key that no relation field names keeps its value. |
| Normalizer.FieldsAt | src/model.ts:220-228 | A relation field ends with its given value when normalized-like, and with the id(s) normalising it returned otherwise. |
| Normalizer.ItemRecordRewritten | src/model.ts:219-230 | The record `normalizeItem` merges into its table is the payload with each relation field that was not normalized-like replaced by its ids, and everything else as given. |
| Normalizer.NormalizeWithin | src/model.ts:176-186 | Normalising into a model writes only into that model's table and the tables of models reachable from it. |
| Normalizer.PlanWithin | src/model.ts:51-61 | Every call shape of `normalize` writes only into the tables the updater's snapshot holds. |
| Normalizer.ApplyAppend | src/model.ts:197-199 | Writing `a` and then `b` is writing `a + b`. |
| Normalizer.KeysAfter | src/model.ts:270-277 | Writing never removes an entry. Each table ends with its old keys plus the keys written into it, and an entry nobody wrote is unchanged. |
| Normalizer.AlreadyStoredUnchanged | src/model.ts:87-93 | Writes whose fields the store already holds leave the store equal to what it was, so `set` does not commit. |
| Normalizer.ApplyEstablishes | src/model.ts:270-277 | After writes that agree on every field they share, the store holds every field of every write. |
| Normalizer.HoldsAfterLast | src/model.ts:273-276 | One more merge that agrees with the earlier writes keeps them all held. |
| Normalizer.LookupAfter | src/model.ts:270-277 | After a sequence of merges, a written entry holds its old fields overlaid with every field merged into it, a later write winning on a shared field. An entry nobody wrote reads as before. |
| Normalizer.EntryIdempotent | src/model.ts:87-93 | Entry by entry, running the same writes a second time reads as the first run left it. |
| Normalizer.TableIdempotent | src/model.ts:87-93 | Table by table, running the same writes a second time leaves the table as the first run left it. |
| Normalizer.Idempotent | src/model.ts:87-93 | Normalising the same payload a second time leaves the store as the first time left it, so `set` does not commit. This holds for every payload whose writes succeed, including one that merges different contents into the same entry. |
| StoreMaps.StoreMap.constructor | src/model.ts:88 | The clone holds the snapshot's tables. |
| StoreMaps.StoreMap.ChangeDataItem | src/model.ts:270-277 | The in-place merge fails exactly on a missing table. Otherwise it leaves the tables as the value-level merge gives them. |
| StoreMaps.StoreMap.Normalize | src/model.ts:168-191 | All three call shapes succeed exactly when the write log succeeds and all its tables exist. They then return the log's id(s) and leave the tables as the log's writes leave them. |
| StoreMaps.StoreMap.NormalizeList | src/model.ts:196-201 | The list loop returns the kept ids of the log, in order, and leaves the tables as the list's writes leave them. It fails exactly when the log fails. |
| StoreMaps.StoreMap.NormalizeListItem | src/model.ts:197-199 | One item: a failure is a failure of the whole list. Otherwise the loop's invariant holds for the next item. |
| StoreMaps.StoreMap.NormalizeItem | src/model.ts:211-233 | `normalizeItem` in place fails exactly when `ItemWrites` fails or writes into a missing table. Otherwise it returns the id `ItemWrites` gives and leaves the tables as its writes leave them. |
| StoreMaps.StoreMap.NormalizeFields | src/model.ts:219-229 | The field loop returns the rewritten clone `FieldsWrites` describes and performs its writes, failing exactly when they fail. |
| Orm.Snapshot | src/model.ts:51-61 | The updater's snapshot holds exactly the tables of the model and its dependencies, as they are. An unregistered dependency throws. |
| Orm.TargetKeys | src/model.ts:102 | `remove`'s targets are the string keys of the id or of each id of an array, in order. A `null` or `undefined` target throws. |
| Orm.ElementKeys | src/model.ts:102 | Mapping `toString` over an id array throws exactly on a `null` or `undefined` element, and otherwise gives one key per id. |
| Orm.ApplyOnSnapshot | src/model.ts:87-91 | Writing into a snapshot that holds every table written, then copying it over the tables, is the same as writing into the tables. |
| Orm.Engine.constructor | src/model.ts:13 | A new engine has an empty registry and no tables. |
| Orm.Engine.CreateModel | src/model.ts:20-26 | A registered name throws "model name existed" and changes nothing. Otherwise the model gets an empty table and is registered. |
| Orm.Engine.UpdaterSnapshot | src/model.ts:51-61 | The snapshot has exactly the model and the names reachable from it, each with its current table. |
| Orm.Engine.Set | src/model.ts:87-94 | `set` succeeds exactly when normalising succeeds and returns the same id(s). The tables become what the writes make of them. It commits exactly when that changes the tables, and a thrown error leaves them unchanged. |
| Orm.Engine.Remove | src/model.ts:95-110 | An `undefined` target throws. Otherwise exactly the existing keys of the model's table whose string form is targeted become `null`. No key is added, and every other entry and table is unchanged. |
| Orm.Engine.Reset | src/model.ts:236-260 | Every registered model's table becomes empty, and no table is added or dropped. |
| Orm.VisitedNames | src/model.ts:242-245 | `traverse` hands `reset` exactly the registered models. |
| Orm.ClearVisited | src/model.ts:242-245 | Resetting each visited model empties exactly the visited tables and keeps the others. |
| Orm.SetOnSnapshot | src/model.ts:87-94 | The body of `set` on the snapshot gives the ids and the tables the write log gives. It commits exactly when the clone differs from the snapshot, which is exactly when the tables change. |
| Orm.SnapshotCommit | src/model.ts:88-92 | The clone after normalising, copied over the tables, is the tables after the writes. It differs from the tables exactly when it differs from the snapshot. |
| Orm.CopyBackChanges | src/model.ts:90-92 | Copying a snapshot back changes the tables exactly when the snapshot was changed. |
| Orm.RemoveOnSnapshot | src/model.ts:99-109 | The body of `remove` tombstones the targeted existing keys of the model's table and leaves all else as read. |
| Orm.TombstoneKeys | src/model.ts:103-108 | The loop over the table keeps its keys, sets every targeted key to `null` and keeps every other value. |
| Reader.ShallowList | src/model.ts:134-136 | A list read holds no more records than ids, and none of them is missing or `null`. |
| Reader.GetValue | src/model.ts:122-142 | A `null`/`undefined` argument gives `null`. A list gives only stored, non-tombstoned records. One id gives its record, or `null` exactly when it is absent or tombstoned. |
| Reader.ShallowListConcat | src/model.ts:134-136 | Reading a list is reading its parts one after the other, so request order is kept. |
| Reader.ShallowListOne | src/model.ts:134-136 | One id reads as its record when that is stored and not a tombstone, and as nothing otherwise. |
| Reader.ShallowListAllPresent | src/model.ts:134-136 | When every id names a stored record, the list read gives those records, one per id, in order. |
| Reader.ShallowListMembers | src/model.ts:134-136 | A record is in a list read exactly when some requested id names it and it is not a tombstone. |
| Reader.Hydrate | src/model.ts:151-166 | Hydrating succeeds only for a registered model, and a model without relation fields hydrates a record to itself. Its effect on a record with relation fields is `HydrateFieldsEffect`. |
| Reader.HydrateFieldsEffect | src/model.ts:151-166 | A `null`/`undefined` record throws on its first relation field; a primitive comes back as it is. An object throws exactly when a present relation field names an unregistered model or its read throws. Otherwise the result has the same keys: non-relation keys and `undefined` relation fields keep their values, and every other relation field holds the hydrated read of the ids it held. |
| Reader.HydrateSkipped | src/model.ts:158 | A relation field holding `undefined` is passed over: the result is that of the remaining fields, and the field keeps its value. |
| Reader.HydrateReplaced | src/model.ts:159-162 | A relation field whose read succeeds is replaced by that read, and the remaining fields are hydrated on the updated clone. |
| Reader.ParsedRead | src/model.ts:122-142 | With a `parse` callback, a `null`/`undefined` argument still gives `null`, and a list gives no more records than ids. |
| Reader.ParsedList | src/model.ts:134-136 | The list branch with `parse` returns no more records than ids. |
| Reader.HydrateAll | src/model.ts:40-42 | Mapping the hydration over the records found throws exactly when one record's hydration throws. Otherwise it gives, position by position, each record's hydration. |
| Reader.DeepRead | src/model.ts:34-46 | The deep read gives `null` for `null`/`undefined`. For a list, it throws exactly when hydrating one of the stored, non-tombstoned records throws. Otherwise element `k` is the hydration of the `k`-th such record. |
| Reader.ShallowListSkips | src/model.ts:134-136 | An id whose entry is absent or falsy can be removed from a list without changing the list read. |
| Reader.DeepReadDropsMissing | src/model.ts:34-46 | An id of a list whose record is missing or removed does not change the deep read of that list. |
| Reader.RemovedLeafReadsNull | src/model.ts:139-141 | A relation to a model without fields reads an absent or tombstoned target as `null`, in either parse order. |
| Reader.FilteredListHydrates | src/model.ts:134-136 | With missing entries dropped before `parse`, a list read is the plain list read with each record hydrated. |
| Reader.RemovedChildCrashesAsWritten | src/model.ts:157 | Deep-reading a book whose comment list names a removed comment, as written, is a property read on `null`. |
| Reader.SurvivingCommentHydrates | src/model.ts:151-166 | A comment without a user field hydrates to itself. |
| Reader.CommentListDropsRemoved | src/model.ts:134-136 | In the corrected order, the removed comment is dropped from the comment list. |
| Reader.RemovedChildDroppedCorrected | src/model.ts:34-46 | In the corrected order, the book reads with the surviving comment only. |
| RoundTrip.ItemCovers | src/model.ts:211-233 | A well-shaped record normalises without error and returns its `idAttr` value. It writes its rewritten record under that id, and every record nested in it, each as an object. |
| RoundTrip.RecordIsRewritten | src/model.ts:219-230 | The record stored for a well-shaped payload has each relation field replaced by the id or ids of its nested records, and every other field as given. |
| RoundTrip.FieldsCover | src/model.ts:219-229 | Every relation field of a well-shaped record normalises, into the ids of its nested records, and the writes cover all of them. |
| RoundTrip.RelationCovers | src/model.ts:176-186 | A nested record or a list of records (possibly empty) normalises into its id or its ids, writing everything in it. |
| RoundTrip.ListCovers | src/model.ts:196-201 | A list of well-shaped records normalises into their ids, one per record and in order, writing each of them. |
| RoundTrip.StoresExactly | src/model.ts:270-277 | Writes that agree on every entry they share, made to entries that hold no record yet or already hold the same one, leave each entry holding exactly its record. |
| RoundTrip.ReadBack | src/model.ts:151-166 | Hydrating the stored record of a well-shaped payload gives back the payload, nested records included, in either parse order. |
| RoundTrip.RelationBack | src/model.ts:157-162 | A relation field's stored ids read back as the nested record or records the payload held. |
| RoundTrip.DeepReadStoredList | src/model.ts:34-46 | The deep read of the ids of stored well-shaped records gives those records back, in order. |
| RoundTrip.RoundTrip | src/model.ts:168-191 | Normalising a well-shaped record (what `set` does) succeeds and returns its `idAttr` value. When its writes go to fresh or identical entries and agree with each other, the deep read of that id on the new tables gives the record back. |
| RoundTrip.RoundTripList | src/model.ts:168-191 | Normalising a list of well-shaped records returns their ids in order. Under the same conditions, the deep read of those ids gives the list back. |

## Left out

- Recoil and React: atoms, selectors, hooks, `useShallowData`/`useData`, and the atom and selector key helpers.
  - A model's atom is its entry in `Engine.tables`.
  - The updater selector's get/set is `UpdaterSnapshot` and copying a map back.
  - `useData` is `DeepRead` on the tables.
- Memoisation and object identity: lodash `cloneDeep` and `isEqual` are value semantics and `==`.
- `console.error` for a record without an id. It is only a diagnostic; the `null` result is modelled.
- Numbers are integers. Fractions, `NaN` and the exponent forms of `Number.prototype.toString` are not modelled.
- Object key order is not modelled. Tables and records are maps; relation fields keep their declared order as a sequence.
  - The registry is a sequence in registration order. `_.keys` and `_.forOwn` enumerate integer-like names first, so for such model names `SetModel`'s "last" and `Traverse`'s order are registration order only in the model.
- Properties inherited from `Object.prototype` (a table key such as `constructor`) are not modelled.
- Spreading a string or an array into a record is not modelled: only object payloads contribute properties to a merge.
- Arrays with named properties are not modelled.
- Values.Get: `length` and index properties of strings and arrays are not modelled. A read from a primitive or an array gives `undefined` for every name. Ids and relation fields are looked up by `idAttr` and field names, so this differs from JavaScript only when such a name is `length` or an index and the value read from is a string or an array.
- Normalizer.FieldsWrites: each relation field's value is read from the payload rather than from the clone being rewritten. The two agree because a JavaScript object cannot name a field twice, and no field is read after it is rewritten.
- StoreMaps.StoreMap.Normalize: after a thrown error, the contents of the clone are not described. `set` throws before committing, so the clone is discarded.
- Reader.Hydrate: deep reads are defined only for schemas with a rank that decreases along every relation field, i.e. acyclic schemas. Divergence on a cyclic schema is not modelled.
- Registry.DeepDeps: the exact breadth-first order after the prefix of direct targets is not stated.
  - `depMap` entries are overwritten in place while later models are closed, so a later model may expand an entry that is already a closure.
  - The model proves the prefix, that later names are distinct, and the reachable set.
- RoundTrip.RoundTrip: the round trip is proved under three conditions.
  - The payload is well shaped: every record has a string or number id, and relation fields hold a record or a list of records (possibly empty).
  - Every entry written is absent, a tombstone, or already holds the record written.
  - Two writes to one entry write the same record.
  - When an entry already holds other fields, the merge keeps them and the read gives them back too.
- Orm.Engine.Reset: the callback of `traverse` is applied to a local copy of the tables, which is then assigned once. Recoil applies the resets in one batch as well.
- Error messages are modelled by error kind and model name only.
  - `createModel`'s duplicate-name message (src/model.ts:24) interpolates the unrelated outer `name`, not the model's name. The model carries `DuplicateModel(opt.name)` instead.
- Test-only APIs (`useGetValue`, `getShallowValue` and shallow reads that filter dangling references) are not in the core source and are not modelled. `useShallowData` returns the stored records as they are.
- Per-record errors do not make a batch write partially succeed: an exception (an unregistered model, or a property read on `null`) aborts the whole `set`, as the code does. Only a record without an id is skipped.

## Findings

| source | as written | input that shows it | evidently intended | confidence | as-written member | corrected member |
|---|---|---|---|---|---|---|
| src/model.ts:134 | `getValue` applies `parse` (the recursive hydration) to every looked-up entry before it filters out missing and `null` ones. A deep read therefore hydrates the tombstone of a removed record, and line 157 reads a property of `null` when the target model has relation fields. | Schema Book{comments→Comment}, Comment{user→User}. Book 1 has comments `["c1","c2"]`, and `c1` is removed (`null`). Deep-reading book 1 throws a TypeError. | Drop missing and removed entries first, then hydrate. Book 1 then reads with comment `c2` only, as the library's tests expect. | not executed | Reader.RemovedChildCrashesAsWritten | Reader.RemovedChildDroppedCorrected |
