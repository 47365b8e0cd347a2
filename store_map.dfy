/**
 * The `storeMap` the normaliser of src/model.ts works on: a deep clone of
 * the tables `set` may touch, which `normalize`, `normalizeList`,
 * `normalizeItem` and `changeDataItemInStoreMap` change in place. Each
 * method is proved to fail exactly when the write log of normaliser.dfy
 * fails and, when it succeeds, to return what the log returns and to
 * leave the tables as the log's writes leave them.
 */
module StoreMaps {
  import opened Values
  import opened Registry
  import opened Normalizer

  /** The store after `ws`, when `n` succeeded and every write found its table. */
  predicate Performs(before: Store, n: Result<Normalized>, after: Store) {
    n.Ok? && ApplyWrites(before, n.value.writes) == Ok(after)
  }

  /** `n` failed, or one of its writes had no table to go to. */
  predicate Fails(before: Store, n: Result<Normalized>) {
    n.Err? || ApplyWrites(before, n.value.writes).Err?
  }

  class StoreMap {
    var tables: Store

    /** `_.cloneDeep(storeMap)`. */
    constructor (snapshot: Store)
      ensures tables == snapshot
    {
      tables := snapshot;
    }

    /** `changeDataItemInStoreMap` (src/model.ts:270-277) on this store. */
    method ChangeDataItem(model: string, id: Value, item: Value) returns (r: Outcome)
      modifies this
      ensures r.Pass? <==> model in old(tables)
      ensures r.Pass? ==> tables == Normalizer.ChangeDataItem(old(tables), model, id, item).value
    {
      if model !in tables {
        return Fail(TypeError);
      }
      var modelDataMap := tables[model];
      var orgDataItem := Lookup(modelDataMap, PropertyKey(id));
      tables := tables[model := modelDataMap[PropertyKey(id) := Obj(Spread(orgDataItem) + Spread(item))]];
      r := Pass;
    }

    /**
     * `normalize` (src/model.ts:168-191): a list payload goes to
     * `NormalizeList`, a single payload or an explicit id with data to
     * `NormalizeItem`.
     */
    method Normalize(schema: Schema, model: string, id: Value, data: Value) returns (r: Result<Value>)
      modifies this
      ensures r.Ok? <==> !Fails(old(tables), Plan(schema, model, id, data))
      ensures r.Ok? ==> Performs(old(tables), Plan(schema, model, id, data), tables)
      ensures r.Ok? ==> r.value == Plan(schema, model, id, data).value.id
      decreases if Truthy(data) then data else id, 3, 0
    {
      if !Truthy(data) {
        if id.Arr? {
          var ids := NormalizeList(schema, model, id.items);
          if ids.Err? {
            return Err(ids.error);
          }
          return Ok(Arr(ids.value));
        }
        r := NormalizeItem(schema, model, id, Undefined);
        return;
      }
      r := NormalizeItem(schema, model, data, id);
    }

    /** `normalizeList` (src/model.ts:196-201): every item in turn, keeping the ids that are not `null`. */
    method NormalizeList(schema: Schema, model: string, items: seq<Value>) returns (r: Result<seq<Value>>)
      modifies this
      ensures var n := ListWrites(schema, model, items, 0);
        r.Ok? <==> n.Ok? && ApplyWrites(old(tables), n.value.writes).Ok?
      ensures var n := ListWrites(schema, model, items, 0);
        r.Ok? ==> r.value == n.value.ids && ApplyWrites(old(tables), n.value.writes) == Ok(tables)
      decreases Arr(items), 2, 0
    {
      var ids: seq<Value> := [];
      ghost var done: seq<Write> := [];
      var i := 0;
      while i < |items|
        invariant 0 <= i <= |items|
        invariant ApplyWrites(old(tables), done) == Ok(tables)
        invariant ListLoop(schema, model, items, i, ids, done)
      {
        var next: Result<seq<Value>>;
        next, done := NormalizeListItem(schema, model, items, i, ids, old(tables), done);
        if next.Err? {
          return Err(next.error);
        }
        ids := next.value;
        i := i + 1;
      }
      ListLoopEnd(schema, model, items, ids, done);
      r := Ok(ids);
    }

    /** One round of `normalizeList`'s loop: item `i` is normalised and its id kept unless it is `null`. */
    method NormalizeListItem(schema: Schema, model: string, items: seq<Value>, i: nat, ids: seq<Value>,
                             ghost start: Store, ghost done: seq<Write>)
      returns (r: Result<seq<Value>>, ghost done': seq<Write>)
      requires i < |items| && ListLoop(schema, model, items, i, ids, done)
      requires ApplyWrites(start, done) == Ok(tables)
      modifies this
      ensures r.Err? ==> var full := ListWrites(schema, model, items, 0);
        full.Err? || ApplyWrites(start, full.value.writes).Err?
      ensures r.Ok? ==> ApplyWrites(start, done') == Ok(tables) && ListLoop(schema, model, items, i + 1, r.value, done')
      decreases Arr(items), 1, 0
    {
      ghost var before := tables;
      var id := NormalizeItem(schema, model, items[i], Undefined);
      if id.Err? {
        ListStepFails(start, before, done, schema, model, items, i, ids);
        return Err(id.error), done;
      }
      ListStepOk(start, before, tables, done, schema, model, items, i, ids, id.value);
      done' := done + ItemWrites(schema, model, items[i], Undefined).value.writes;
      r := Ok(if id.value.Null? then ids else ids + [id.value]);
    }

    /**
     * `normalizeItem` (src/model.ts:211-233): find the id, rewrite the
     * relation fields of a clone one after the other, then merge the clone
     * into the model's table.
     */
    method NormalizeItem(schema: Schema, model: string, data: Value, id: Value) returns (r: Result<Value>)
      modifies this
      ensures r.Ok? <==> !Fails(old(tables), ItemWrites(schema, model, data, id))
      ensures r.Ok? ==> Performs(old(tables), ItemWrites(schema, model, data, id), tables)
      ensures r.Ok? ==> r.value == ItemWrites(schema, model, data, id).value.id
      decreases data, 1, 0
    {
      if model !in schema {
        return Err(UnknownModel(model));
      }
      var opt := schema[model];
      var idVal: Value;
      if id.Undefined? {
        var g := Get(data, opt.idAttr);
        if g.Err? {
          return Err(g.error);
        }
        idVal := g.value;
      } else {
        idVal := id;
      }
      if idVal.Undefined? {
        return Ok(Null);
      }
      var fieldsOut := NormalizeFields(schema, opt.fields, data);
      if fieldsOut.Err? {
        ItemFieldsFail(old(tables), schema, model, data, id, idVal);
        return Err(fieldsOut.error);
      }
      ghost var mid := tables;
      var written := ChangeDataItem(model, idVal, fieldsOut.value);
      ItemMerged(old(tables), mid, tables, written.Pass?, schema, model, data, id, idVal,
                 FieldsWrites(schema, opt.fields, 0, data, data).value);
      if written.Fail? {
        return Err(written.error);
      }
      r := Ok(idVal);
    }

    /**
     * The `_.forOwn(currFields, ...)` loop of `normalizeItem`
     * (src/model.ts:219-229) on a clone of `data`: each relation field that
     * holds data not yet normalised is normalised into its target model,
     * and the clone's field replaced with the result.
     */
    method NormalizeFields(schema: Schema, fields: seq<Field>, data: Value) returns (r: Result<Value>)
      modifies this
      ensures var n := FieldsWrites(schema, fields, 0, data, data);
        r.Ok? <==> n.Ok? && ApplyWrites(old(tables), n.value.writes).Ok?
      ensures var n := FieldsWrites(schema, fields, 0, data, data);
        r.Ok? ==> r.value == n.value.item && ApplyWrites(old(tables), n.value.writes) == Ok(tables)
      decreases data, 0, 0
    {
      var newDataItem := data;
      ghost var done: seq<Write> := [];
      var i := 0;
      while i < |fields|
        invariant 0 <= i <= |fields|
        invariant ApplyWrites(old(tables), done) == Ok(tables)
        invariant FieldsLoop(schema, fields, data, i, newDataItem, done)
      {
        var field := fields[i];
        var g := Get(data, field.name);
        if g.Err? {
          FieldsLoopFails(schema, fields, data, i, newDataItem, done);
          return Err(g.error);
        }
        var subModelData := g.value;
        if !subModelData.Undefined? && !IsNormalizedLike(subModelData) {
          assert data.Obj? && subModelData == data.props[field.name];
          var subDataIds := Normalize(schema, field.target, subModelData, Undefined);
          ghost var sub := NormalizeWrites(schema, field.target, subModelData);
          if subDataIds.Err? {
            if sub.Ok? {
              FieldsFailAfter(old(tables), done, sub.value.writes, schema, fields, i, data, newDataItem);
            } else {
              FieldsLoopFails(schema, fields, data, i, newDataItem, done);
            }
            return Err(subDataIds.error);
          }
          ApplyAppend(old(tables), done, sub.value.writes);
          FieldsLoopStep(schema, fields, data, i, newDataItem, done);
          done := done + sub.value.writes;
          newDataItem := SetProp(newDataItem, field.name, subDataIds.value);
        } else {
          FieldsLoopStep(schema, fields, data, i, newDataItem, done);
        }
        i := i + 1;
      }
      FieldsLoopEnd(schema, fields, data, newDataItem, done);
      r := Ok(newDataItem);
    }
  }

  /**
   * After `i` items, `NormalizeList` has collected `ids` and made the
   * writes `done`: the first part of what `ListWrites` returns.
   */
  ghost predicate ListLoop(schema: Schema, model: string, items: seq<Value>, i: nat, ids: seq<Value>, done: seq<Write>)
    requires i <= |items|
  {
    var full := ListWrites(schema, model, items, 0);
    var rest := ListWrites(schema, model, items, i);
    && (full.Ok? <==> rest.Ok?)
    && (full.Ok? ==> full.value.ids == ids + rest.value.ids && full.value.writes == done + rest.value.writes)
  }

  lemma ListLoopStep(schema: Schema, model: string, items: seq<Value>, i: nat, ids: seq<Value>, done: seq<Write>)
    requires i < |items| && ListLoop(schema, model, items, i, ids, done)
    requires ItemWrites(schema, model, items[i], Undefined).Ok?
    ensures var n := ItemWrites(schema, model, items[i], Undefined).value;
      ListLoop(schema, model, items, i + 1, ids + (if n.id.Null? then [] else [n.id]), done + n.writes)
  {
    var n := ItemWrites(schema, model, items[i], Undefined).value;
    var head := if n.id.Null? then [] else [n.id];
    var next := ListWrites(schema, model, items, i + 1);
    if next.Ok? {
      assert ListWrites(schema, model, items, i).value == ListOut(head + next.value.ids, n.writes + next.value.writes);
      assert ids + (head + next.value.ids) == (ids + head) + next.value.ids;
      assert done + (n.writes + next.value.writes) == (done + n.writes) + next.value.writes;
    }
  }

  /** One item of `normalizeList` that succeeded: the loop's state moves on by its writes and its id. */
  lemma ListStepOk(store: Store, before: Store, after: Store, done: seq<Write>,
                   schema: Schema, model: string, items: seq<Value>, i: nat, ids: seq<Value>, id: Value)
    requires i < |items| && ListLoop(schema, model, items, i, ids, done)
    requires ApplyWrites(store, done) == Ok(before)
    requires Performs(before, ItemWrites(schema, model, items[i], Undefined), after)
    requires id == ItemWrites(schema, model, items[i], Undefined).value.id
    ensures var n := ItemWrites(schema, model, items[i], Undefined).value;
      && ApplyWrites(store, done + n.writes) == Ok(after)
      && ListLoop(schema, model, items, i + 1, if id.Null? then ids else ids + [id], done + n.writes)
  {
    var n := ItemWrites(schema, model, items[i], Undefined).value;
    ApplyAppend(store, done, n.writes);
    ListLoopStep(schema, model, items, i, ids, done);
    if id.Null? {
      assert ids + [] == ids;
    }
  }

  /** One item of `normalizeList` that failed: the whole list fails. */
  lemma ListStepFails(store: Store, before: Store, done: seq<Write>,
                      schema: Schema, model: string, items: seq<Value>, i: nat, ids: seq<Value>)
    requires i < |items| && ListLoop(schema, model, items, i, ids, done)
    requires ApplyWrites(store, done) == Ok(before)
    requires Fails(before, ItemWrites(schema, model, items[i], Undefined))
    ensures var full := ListWrites(schema, model, items, 0);
      full.Err? || ApplyWrites(store, full.value.writes).Err?
  {
    var n := ItemWrites(schema, model, items[i], Undefined);
    if n.Ok? {
      ListFailsAfter(store, done, n.value.writes, schema, model, items, i);
    } else {
      ListLoopFails(schema, model, items, i, ids, done);
    }
  }

  /** `normalizeItem` when processing the relation fields failed: the item's writes fail. */
  lemma ItemFieldsFail(store: Store, schema: Schema, model: string, data: Value, id: Value, idVal: Value)
    requires model in schema && !idVal.Undefined?
    requires id.Undefined? ==> Get(data, schema[model].idAttr) == Ok(idVal)
    requires !id.Undefined? ==> idVal == id
    requires var fw := FieldsWrites(schema, schema[model].fields, 0, data, data);
      !(fw.Ok? && ApplyWrites(store, fw.value.writes).Ok?)
    ensures Fails(store, ItemWrites(schema, model, data, id))
  {
    var fw := FieldsWrites(schema, schema[model].fields, 0, data, data);
    if fw.Ok? {
      ApplyAppend(store, fw.value.writes, [Write(model, idVal, fw.value.item)]);
    }
  }

  /** `normalizeItem` after its relation fields: merging the clone completes the item's writes. */
  lemma ItemMerged(store: Store, mid: Store, after: Store, ok: bool,
                   schema: Schema, model: string, data: Value, id: Value, idVal: Value, fw: FieldsOut)
    requires model in schema && !idVal.Undefined?
    requires if id.Undefined? then Get(data, schema[model].idAttr) == Ok(idVal) else idVal == id
    requires FieldsWrites(schema, schema[model].fields, 0, data, data) == Ok(fw)
    requires ApplyWrites(store, fw.writes) == Ok(mid)
    requires ok <==> model in mid
    requires ok ==> Ok(after) == ChangeDataItem(mid, model, idVal, fw.item)
    ensures ItemWrites(schema, model, data, id) == Ok(Normalized(idVal, fw.writes + [Write(model, idVal, fw.item)]))
    ensures ok <==> !Fails(store, ItemWrites(schema, model, data, id))
    ensures ok ==> Performs(store, ItemWrites(schema, model, data, id), after)
  {
    ApplyAppend(store, fw.writes, [Write(model, idVal, fw.item)]);
  }

  lemma ListLoopFails(schema: Schema, model: string, items: seq<Value>, i: nat, ids: seq<Value>, done: seq<Write>)
    requires i < |items| && ListLoop(schema, model, items, i, ids, done)
    requires ItemWrites(schema, model, items[i], Undefined).Err?
    ensures ListWrites(schema, model, items, 0).Err?
  {
  }

  lemma ListLoopEnd(schema: Schema, model: string, items: seq<Value>, ids: seq<Value>, done: seq<Write>)
    requires ListLoop(schema, model, items, |items|, ids, done)
    ensures ListWrites(schema, model, items, 0) == Ok(ListOut(ids, done))
  {
    assert ids + [] == ids && done + [] == done;
  }

  /**
   * After `i` fields, `NormalizeFields` holds the clone `item` and has made
   * the writes `done`: the first part of what `FieldsWrites` returns.
   */
  ghost predicate FieldsLoop(schema: Schema, fields: seq<Field>, data: Value, i: nat, item: Value, done: seq<Write>)
    requires i <= |fields|
  {
    var full := FieldsWrites(schema, fields, 0, data, data);
    var rest := FieldsWrites(schema, fields, i, data, item);
    && (full.Ok? <==> rest.Ok?)
    && (full.Ok? ==> full.value.item == rest.value.item && full.value.writes == done + rest.value.writes)
  }

  lemma FieldsLoopStep(schema: Schema, fields: seq<Field>, data: Value, i: nat, item: Value, done: seq<Write>)
    requires i < |fields| && FieldsLoop(schema, fields, data, i, item, done)
    requires Get(data, fields[i].name).Ok?
    ensures var v := Get(data, fields[i].name).value;
      v.Undefined? || IsNormalizedLike(v) ==> FieldsLoop(schema, fields, data, i + 1, item, done)
    ensures var v := Get(data, fields[i].name).value;
      var sub := NormalizeWrites(schema, fields[i].target, v);
      !v.Undefined? && !IsNormalizedLike(v) && sub.Ok? ==>
        FieldsLoop(schema, fields, data, i + 1, SetProp(item, fields[i].name, sub.value.id), done + sub.value.writes)
  {
    var v := Get(data, fields[i].name).value;
    var sub := NormalizeWrites(schema, fields[i].target, v);
    if !v.Undefined? && !IsNormalizedLike(v) && sub.Ok? {
      var next := FieldsWrites(schema, fields, i + 1, data, SetProp(item, fields[i].name, sub.value.id));
      if next.Ok? {
        assert done + (sub.value.writes + next.value.writes) == (done + sub.value.writes) + next.value.writes;
      }
    }
  }

  /** A field the loop cannot process makes `FieldsWrites` fail. */
  lemma FieldsLoopFails(schema: Schema, fields: seq<Field>, data: Value, i: nat, item: Value, done: seq<Write>)
    requires i < |fields| && FieldsLoop(schema, fields, data, i, item, done)
    requires var g := Get(data, fields[i].name);
      g.Err? || (!g.value.Undefined? && !IsNormalizedLike(g.value) && NormalizeWrites(schema, fields[i].target, g.value).Err?)
    ensures FieldsWrites(schema, fields, 0, data, data).Err?
  {
  }

  lemma FieldsLoopEnd(schema: Schema, fields: seq<Field>, data: Value, item: Value, done: seq<Write>)
    requires FieldsLoop(schema, fields, data, |fields|, item, done)
    ensures FieldsWrites(schema, fields, 0, data, data) == Ok(FieldsOut(item, done))
  {
    assert done + [] == done;
  }

  /** An item whose writes fail after the earlier items' writes makes the whole list fail. */
  lemma ListFailsAfter(store: Store, done: seq<Write>, ws: seq<Write>, schema: Schema, model: string, items: seq<Value>, i: nat)
    requires i < |items|
    requires ApplyWrites(store, done).Ok? && ApplyWrites(ApplyWrites(store, done).value, ws).Err?
    requires ItemWrites(schema, model, items[i], Undefined).Ok?
    requires ItemWrites(schema, model, items[i], Undefined).value.writes == ws
    requires var full := ListWrites(schema, model, items, 0);
      var rest := ListWrites(schema, model, items, i);
      (full.Ok? <==> rest.Ok?) && (full.Ok? ==> full.value.writes == done + rest.value.writes)
    ensures var full := ListWrites(schema, model, items, 0);
      full.Err? || ApplyWrites(store, full.value.writes).Err?
  {
    var full := ListWrites(schema, model, items, 0);
    if full.Ok? {
      var tail := ListWrites(schema, model, items, i + 1).value.writes;
      assert full.value.writes == done + (ws + tail);
      ApplyAppend(store, done, ws + tail);
      ApplyAppend(ApplyWrites(store, done).value, ws, tail);
    }
  }

  /** A relation field whose writes fail after the earlier fields' writes makes the whole item fail. */
  lemma FieldsFailAfter(store: Store, done: seq<Write>, ws: seq<Write>, schema: Schema, fields: seq<Field>, i: nat, data: Value, item: Value)
    requires i < |fields|
    requires ApplyWrites(store, done).Ok? && ApplyWrites(ApplyWrites(store, done).value, ws).Err?
    requires data.Obj? && fields[i].name in data.props
    requires !IsNormalizedLike(data.props[fields[i].name])
    requires NormalizeWrites(schema, fields[i].target, data.props[fields[i].name]).Ok?
    requires NormalizeWrites(schema, fields[i].target, data.props[fields[i].name]).value.writes == ws
    requires var full := FieldsWrites(schema, fields, 0, data, data);
      var rest := FieldsWrites(schema, fields, i, data, item);
      (full.Ok? <==> rest.Ok?) && (full.Ok? ==> full.value.writes == done + rest.value.writes)
    ensures var full := FieldsWrites(schema, fields, 0, data, data);
      full.Err? || ApplyWrites(store, full.value.writes).Err?
  {
    var full := FieldsWrites(schema, fields, 0, data, data);
    if full.Ok? {
      var f := fields[i];
      var sub := NormalizeWrites(schema, f.target, data.props[f.name]).value;
      var tail := FieldsWrites(schema, fields, i + 1, data, SetProp(item, f.name, sub.id)).value.writes;
      assert full.value.writes == done + (ws + tail);
      ApplyAppend(store, done, ws + tail);
      ApplyAppend(ApplyWrites(store, done).value, ws, tail);
    }
  }
}
