/**
 * The engine `initModel` returns (src/model.ts): one registry and, for
 * every registered model, its table. `createModel` registers a model and
 * gives it an empty table; the `set` and `remove` of a model's
 * `useChangeData` work on a snapshot of the tables that model depends on
 * and commit it back; the global `reset` empties every table.
 */
module Orm {
  import opened Values
  import opened Registry
  import opened Normalizer
  import opened StoreMaps

  /**
   * The updater's snapshot (src/model.ts:51-61): the tables of the
   * model's dependencies and its own; an unregistered dependency makes
   * `getModel` throw.
   */
  function Snapshot(schema: Schema, tables: Store, current: string, deps: seq<string>): (r: Result<Store>)
    requires current in schema && schema.Keys <= tables.Keys
    ensures r.Err? <==> exists i :: 0 <= i < |deps| && deps[i] !in schema
    ensures r.Err? ==> r.error.UnknownModel? && r.error.name !in schema
    ensures r.Ok? ==> r.value.Keys == {current} + Elems(deps)
    ensures r.Ok? ==> forall m :: m in r.value ==> m in tables && r.value[m] == tables[m]
    decreases |deps|
  {
    if |deps| == 0 then Ok(map[current := tables[current]])
    else if deps[0] !in schema then Err(UnknownModel(deps[0]))
    else
      var rest :- Snapshot(schema, tables, current, deps[1..]);
      assert Elems(deps) == {deps[0]} + Elems(deps[1..]);
      Ok(rest[deps[0] := tables[deps[0]]])
  }

  /** The targets of `remove`, as the strings the table's keys are compared with (src/model.ts:102). */
  function TargetKeys(id: Value): (r: Result<seq<string>>)
    ensures r.Err? <==> id.Null? || id.Undefined? || (id.Arr? && exists i :: 0 <= i < |id.items| && (id.items[i].Null? || id.items[i].Undefined?))
    ensures r.Ok? && !id.Arr? ==> r.value == [PropertyKey(id)]
    ensures r.Ok? && id.Arr? ==> |r.value| == |id.items| && forall i :: 0 <= i < |id.items| ==> r.value[i] == PropertyKey(id.items[i])
    decreases id, 1
  {
    if id.Arr? then ElementKeys(id.items, 0)
    else if id.Null? || id.Undefined? then Err(TypeError)
    else Ok([PropertyKey(id)])
  }

  function ElementKeys(items: seq<Value>, i: nat): (r: Result<seq<string>>)
    requires i <= |items|
    ensures r.Err? <==> exists j :: i <= j < |items| && (items[j].Null? || items[j].Undefined?)
    ensures r.Ok? ==> |r.value| == |items| - i && forall j :: i <= j < |items| ==> r.value[j - i] == PropertyKey(items[j])
    decreases |items| - i
  {
    if i == |items| then Ok([])
    else if items[i].Null? || items[i].Undefined? then Err(TypeError)
    else
      var rest :- ElementKeys(items, i + 1);
      Ok([PropertyKey(items[i])] + rest)
  }

  /** Writing into `snap`, a part of `store` holding every table written, and copying it back is writing into `store`. */
  lemma {:induction false} ApplyOnSnapshot(store: Store, snap: Store, ws: seq<Write>)
    requires snap.Keys <= store.Keys && forall m :: m in snap ==> snap[m] == store[m]
    requires forall i :: 0 <= i < |ws| ==> ws[i].table in snap
    ensures ApplyWrites(snap, ws).Ok? && ApplyWrites(store, ws).Ok?
    ensures store + ApplyWrites(snap, ws).value == ApplyWrites(store, ws).value
    decreases |ws|
  {
    if |ws| == 0 {
      assert store + snap == store;
    } else {
      var w := ws[0];
      var s1 := ChangeDataItem(snap, w.table, w.id, w.item).value;
      var t1 := ChangeDataItem(store, w.table, w.id, w.item).value;
      assert s1 == snap[w.table := t1[w.table]];
      assert t1 == store[w.table := t1[w.table]];
      ApplyOnSnapshot(t1, s1, ws[1..]);
      var x := ApplyWrites(s1, ws[1..]).value;
      assert w.table in x;
      OverrideAbsorbs(store, t1, x, w.table);
    }
  }

  /** Overriding with a map that sets key `k` hides what was at `k` before. */
  lemma OverrideAbsorbs(a: Store, b: Store, x: Store, k: string)
    requires k in x && k in b && b == a[k := b[k]]
    ensures a + x == b + x
  {
  }

  class Engine {
    const manager: ModelManager
    var tables: Store

    ghost predicate Valid()
      reads this, manager
    {
      && manager.Valid()
      && tables.Keys == manager.data.Keys
      && forall m :: m in manager.data ==> manager.data[m].name == m
    }

    /** `initModel()`: an empty registry and no tables. */
    constructor ()
      ensures Valid() && fresh(manager) && manager.data == map[] && tables == map[]
    {
      manager := new ModelManager();
      tables := map[];
    }

    /**
     * `createModel` (src/model.ts:20-75): a registered name throws;
     * otherwise the model gets an empty table and is registered.
     */
    method CreateModel(opt: ModelOpt) returns (r: Outcome)
      requires Valid()
      modifies this, manager
      ensures Valid()
      ensures r.Fail? <==> opt.name in old(manager.data)
      ensures r.Fail? ==> r.error == DuplicateModel(opt.name)
      ensures r.Fail? ==> tables == old(tables) && manager.data == old(manager.data)
      ensures r.Pass? ==> tables == old(tables)[opt.name := map[]] && manager.data == old(manager.data)[opt.name := opt]
    {
      if manager.HasModel(opt.name) {
        return Fail(DuplicateModel(opt.name));
      }
      tables := tables[opt.name := map[]];
      r := manager.SetModel(opt.name, opt);
    }

    /** The snapshot the updater of `current` hands to `set` and `remove`. */
    function UpdaterSnapshot(current: string): (r: Result<Store>)
      reads this, manager
      requires Valid()
      ensures r.Err? ==> r.error.UnknownModel?
      ensures r.Ok? ==> current in manager.data
      ensures r.Ok? ==> forall n :: n in r.value <==> n == current || Reachable(manager.data, current, n)
      ensures r.Ok? ==> forall m :: m in r.value ==> m in manager.data && r.value[m] == tables[m]
    {
      var deps :- manager.GetDeps(current);
      Snapshot(manager.data, tables, current, deps)
    }

    /**
     * The `set` of `useChangeData` (src/model.ts:87-94) on the snapshot of
     * `current`; returns the ids and whether it committed.
     */
    method Set(current: string, id: Value, data: Value) returns (r: Result<Value>, committed: bool)
      requires Valid()
      modifies this
      ensures Valid()
      ensures r.Ok? <==> old(UpdaterSnapshot(current)).Ok? && Plan(manager.data, current, id, data).Ok?
      ensures r.Ok? ==> r.value == Plan(manager.data, current, id, data).value.id
      ensures r.Ok? ==> Ok(tables) == ApplyWrites(old(tables), Plan(manager.data, current, id, data).value.writes)
      ensures committed <==> tables != old(tables)
      ensures r.Err? ==> tables == old(tables)
    {
      var snap := UpdaterSnapshot(current);
      if snap.Err? {
        return Err(snap.error), false;
      }
      var newTables;
      r, newTables, committed := SetOnSnapshot(manager.data, tables, current, snap.value, id, data);
      tables := newTables;
    }

    /**
     * The `remove` of `useChangeData` (src/model.ts:95-110): an undefined
     * target throws; otherwise every existing key of the model's table
     * whose string form is among the targets becomes the tombstone `null`.
     * The rest of the snapshot is committed as it was read.
     */
    method Remove(current: string, id: Value) returns (r: Outcome)
      requires Valid()
      modifies this
      ensures Valid()
      ensures r.Pass? <==> !id.Undefined? && old(UpdaterSnapshot(current)).Ok? && TargetKeys(id).Ok?
      ensures id.Undefined? ==> r == Fail(InvalidRemoveTarget)
      ensures r.Fail? ==> tables == old(tables)
      ensures r.Pass? ==> tables.Keys == old(tables).Keys
      ensures r.Pass? ==> forall m :: m in tables && m != current ==> tables[m] == old(tables)[m]
      ensures r.Pass? ==> tables[current].Keys == old(tables)[current].Keys
      ensures r.Pass? ==> forall k :: k in tables[current] ==>
        tables[current][k] == (if k in TargetKeys(id).value then Null else old(tables)[current][k])
    {
      if id.Undefined? {
        return Fail(InvalidRemoveTarget);
      }
      var snap := UpdaterSnapshot(current);
      if snap.Err? {
        return Fail(snap.error);
      }
      var newTables;
      r, newTables := RemoveOnSnapshot(tables, current, snap.value, id);
      tables := newTables;
    }

    /**
     * The global `reset` (src/model.ts:236-260): `traverse` visits every
     * registered model and resets its table to the atom default `{}`.
     */
    method Reset()
      requires Valid()
      modifies this
      ensures Valid()
      ensures tables.Keys == old(tables).Keys
      ensures forall m :: m in tables ==> tables[m] == map[]
    {
      var visited := manager.Traverse();
      VisitedNames(manager.names, manager.data, visited);
      tables := ClearVisited(tables, visited);
    }
  }

  /** `traverse` visits, by name, exactly the registered models. */
  lemma VisitedNames(names: seq<string>, data: Schema, visited: seq<ModelOpt>)
    requires NamesMatch(names, data) && forall m :: m in data ==> data[m].name == m
    requires |visited| == |names| && forall i :: 0 <= i < |names| ==> visited[i] == data[names[i]]
    ensures forall m :: m in data <==> exists j :: 0 <= j < |visited| && visited[j].name == m
  {
    forall m | m in data
      ensures exists j :: 0 <= j < |visited| && visited[j].name == m
    {
      TraverseOnce(names, data, m);
      var j :| 0 <= j < |names| && names[j] == m;
      assert visited[j].name == m;
    }
  }

  /** The callback of `reset` applied to each visited model: its table becomes `{}`. */
  method ClearVisited(tables: Store, visited: seq<ModelOpt>) returns (cleared: Store)
    ensures cleared.Keys == tables.Keys + set j | 0 <= j < |visited| :: visited[j].name
    ensures forall m :: m in cleared ==>
      cleared[m] == if exists j :: 0 <= j < |visited| && visited[j].name == m then map[] else tables[m]
  {
    cleared := tables;
    for i := 0 to |visited|
      invariant cleared.Keys == tables.Keys + set j | 0 <= j < i :: visited[j].name
      invariant forall m :: m in cleared ==>
        cleared[m] == if exists j :: 0 <= j < i && visited[j].name == m then map[] else tables[m]
    {
      cleared := cleared[visited[i].name := map[]];
    }
  }

  /**
   * The body of `set` (src/model.ts:87-94) on the snapshot `snap` of
   * `tables`: normalise into a clone and commit the clone when it differs
   * from the snapshot.
   */
  method SetOnSnapshot(schema: Schema, tables: Store, current: string, snap: Store, id: Value, data: Value)
    returns (r: Result<Value>, newTables: Store, committed: bool)
    requires forall n :: n in snap <==> n == current || Reachable(schema, current, n)
    requires forall m :: m in snap ==> m in tables && snap[m] == tables[m]
    ensures r.Ok? <==> Plan(schema, current, id, data).Ok?
    ensures r.Ok? ==> r.value == Plan(schema, current, id, data).value.id
    ensures r.Ok? ==> Ok(newTables) == ApplyWrites(tables, Plan(schema, current, id, data).value.writes)
    ensures r.Err? ==> newTables == tables
    ensures committed <==> newTables != tables
    ensures newTables.Keys == tables.Keys
  {
    var storeMap := new StoreMap(snap);
    var ids := storeMap.Normalize(schema, current, id, data);
    SnapshotCommit(schema, tables, current, snap, id, data, ids.Ok?, storeMap.tables);
    if ids.Err? {
      return Err(ids.error), tables, false;
    }
    if storeMap.tables != snap {
      newTables, committed := tables + storeMap.tables, true;
    } else {
      newTables, committed := tables, false;
    }
    r := Ok(ids.value);
  }

  /**
   * What `set` commits: the snapshot after normalising, copied over the
   * tables, is the tables after the writes; it differs from the tables
   * exactly when it differs from the snapshot.
   */
  lemma SnapshotCommit(schema: Schema, tables: Store, current: string, snap: Store, id: Value, data: Value, ok: bool, after: Store)
    requires forall n :: n in snap <==> n == current || Reachable(schema, current, n)
    requires forall m :: m in snap ==> m in tables && snap[m] == tables[m]
    requires ok <==> !Fails(snap, Plan(schema, current, id, data))
    requires ok ==> Performs(snap, Plan(schema, current, id, data), after)
    ensures ok <==> Plan(schema, current, id, data).Ok?
    ensures ok ==> Ok(tables + after) == ApplyWrites(tables, Plan(schema, current, id, data).value.writes)
    ensures ok ==> (tables + after).Keys == tables.Keys
    ensures ok ==> (after != snap <==> tables + after != tables)
    ensures ok && after == snap ==> tables + after == tables
  {
    var plan := Plan(schema, current, id, data);
    if plan.Ok? {
      PlanWithin(schema, current, id, data);
      ApplyOnSnapshot(tables, snap, plan.value.writes);
    }
    if ok {
      CopyBackChanges(tables, snap, after);
    }
  }

  /** Copying a snapshot back changes the tables exactly when the snapshot was changed. */
  lemma CopyBackChanges(tables: Store, snap: Store, after: Store)
    requires forall m :: m in snap ==> m in tables && snap[m] == tables[m]
    requires after.Keys == snap.Keys
    ensures after != snap <==> tables + after != tables
    ensures after == snap ==> tables + after == tables
  {
    if after != snap {
      var k :| k in after && (k !in snap || after[k] != snap[k]);
      assert (tables + after)[k] != tables[k];
    } else {
      assert tables + after == tables;
    }
  }

  /**
   * The body of `remove` after its `undefined` check (src/model.ts:99-109)
   * on the snapshot `snap` of `tables`.
   */
  method RemoveOnSnapshot(tables: Store, current: string, snap: Store, id: Value) returns (r: Outcome, newTables: Store)
    requires current in snap && current in tables && snap[current] == tables[current]
    ensures r.Pass? <==> TargetKeys(id).Ok?
    ensures r.Fail? ==> newTables == tables
    ensures r.Pass? ==> newTables.Keys == tables.Keys
    ensures r.Pass? ==> forall m :: m in tables && m != current ==> newTables[m] == tables[m]
    ensures r.Pass? ==> newTables[current].Keys == tables[current].Keys
    ensures r.Pass? ==> forall k :: k in newTables[current] ==>
      newTables[current][k] == (if k in TargetKeys(id).value then Null else tables[current][k])
  {
    var targetIds := TargetKeys(id);
    if targetIds.Err? {
      return Fail(targetIds.error), tables;
    }
    var modelData := TombstoneKeys(snap[current], targetIds.value);
    newTables := tables[current := modelData];
    r := Pass;
  }

  /**
   * The `_.forOwn(modelData, ...)` loop of `remove` (src/model.ts:103-108):
   * each key of the table whose string is among `targetIds` gets the
   * tombstone `null`.
   */
  method TombstoneKeys(table: Table, targetIds: seq<string>) returns (modelData: Table)
    ensures modelData.Keys == table.Keys
    ensures forall k :: k in table ==> modelData[k] == (if k in targetIds then Null else table[k])
  {
    modelData := table;
    var todo := table.Keys;
    while todo != {}
      invariant todo <= table.Keys && modelData.Keys == table.Keys
      invariant forall k :: k in todo ==> modelData[k] == table[k]
      invariant forall k :: k in table && k !in todo ==>
        modelData[k] == (if k in targetIds then Null else table[k])
      decreases todo
    {
      var k :| k in todo;
      if k in targetIds {
        modelData := modelData[k := Null];
      }
      todo := todo - {k};
    }
  }
}
