/**
 * The normaliser of src/model.ts (`normalize`, `normalizeList`,
 * `normalizeItem`, `changeDataItemInStoreMap`) stated as values.
 *
 * Which entries a payload writes, under which ids and with which contents,
 * depends on the payload and the schema only; the store decides nothing but
 * whether a table is there to write into. So normalising is described as
 * the list of `changeDataItemInStoreMap` calls the payload causes, in the
 * order the source makes them (`ItemWrites` and friends), folded over the
 * store (`ApplyWrites`). The class in store_map.dfy performs the same calls
 * in place and is proved to end in the state `ApplyWrites` describes.
 */
module Normalizer {
  import opened Values
  import opened Registry

  /** One `changeDataItemInStoreMap(table, storeMap, id, item)` call. */
  datatype Write = Write(table: string, id: Value, item: Value)

  /** What normalising returns (an id, an `Arr` of ids, or `Null`) and the writes it makes, in order. */
  datatype Normalized = Normalized(id: Value, writes: seq<Write>)

  /** What `normalizeList` returns and the writes it makes. */
  datatype ListOut = ListOut(ids: seq<Value>, writes: seq<Write>)

  /** The rewritten clone after the relation fields are processed, and the writes made meanwhile. */
  datatype FieldsOut = FieldsOut(item: Value, writes: seq<Write>)

  /** `{...orgDataItem, ...dataItem}`. */
  function MergeRecord(org: Value, item: Value): Value {
    Obj(Spread(org) + Spread(item))
  }

  /**
   * `changeDataItemInStoreMap` (src/model.ts:270-277): a one-level merge of
   * `item` over the entry at `id` of the model's table. A store without that
   * table makes the source read a property of `undefined`.
   */
  function ChangeDataItem(store: Store, model: string, id: Value, item: Value): (r: Result<Store>)
    ensures r.Ok? <==> model in store
    ensures r.Ok? ==> r.value.Keys == store.Keys
    ensures r.Ok? ==> forall t :: t in store && t != model ==> r.value[t] == store[t]
    ensures r.Ok? ==> r.value[model].Keys == store[model].Keys + {PropertyKey(id)}
    ensures r.Ok? ==> forall k :: k in store[model] && k != PropertyKey(id) ==> r.value[model][k] == store[model][k]
    ensures r.Ok? ==>
      var key := PropertyKey(id);
      var org := Spread(Lookup(store[model], key));
      var rec := r.value[model][key];
      && rec.Obj?
      && rec.props.Keys == org.Keys + Spread(item).Keys
      && (forall f :: f in Spread(item) ==> rec.props[f] == Spread(item)[f])
      && (forall f :: f in org && f !in Spread(item) ==> rec.props[f] == org[f])
    ensures r.Ok? && !Lookup(store[model], PropertyKey(id)).Obj? ==>
      r.value[model][PropertyKey(id)] == Obj(Spread(item))
  {
    if model !in store then Err(TypeError)
    else
      var table := store[model];
      var key := PropertyKey(id);
      Ok(store[model := table[key := MergeRecord(Lookup(table, key), item)]])
  }

  /** Performs the writes in order; fails at the first one whose table is missing. */
  function ApplyWrites(store: Store, ws: seq<Write>): (r: Result<Store>)
    ensures r.Ok? <==> forall i :: 0 <= i < |ws| ==> ws[i].table in store
    ensures r.Ok? ==> r.value.Keys == store.Keys
    decreases |ws|
  {
    if |ws| == 0 then Ok(store)
    else
      var s1 :- ChangeDataItem(store, ws[0].table, ws[0].id, ws[0].item);
      ApplyWrites(s1, ws[1..])
  }

  /**
   * `normalize(model, storeMap, v)` with no `data` argument, as the relation
   * fields call it (src/model.ts:176-186): an array goes to
   * `normalizeList` and yields an `Arr` of ids, anything else to
   * `normalizeItem`.
   */
  function NormalizeWrites(schema: Schema, model: string, v: Value): (r: Result<Normalized>)
    decreases v, 3, 0
  {
    match v
    case Arr(items) =>
      var out :- ListWrites(schema, model, items, 0);
      Ok(Normalized(Arr(out.ids), out.writes))
    case _ => ItemWrites(schema, model, v, Undefined)
  }

  /**
   * `normalizeList` (src/model.ts:196-201) on `items[i..]`: normalise each
   * item in order and keep the ids that are not `null`.
   */
  function ListWrites(schema: Schema, model: string, items: seq<Value>, i: nat): (r: Result<ListOut>)
    requires i <= |items|
    decreases Arr(items), 2, |items| - i
  {
    if i == |items| then Ok(ListOut([], []))
    else
      var n :- ItemWrites(schema, model, items[i], Undefined);
      var rest :- ListWrites(schema, model, items, i + 1);
      Ok(ListOut((if n.id.Null? then [] else [n.id]) + rest.ids, n.writes + rest.writes))
  }

  /** The id `normalizeItem` uses when no id is passed: `data[idAttr]`. */
  function IdAttrValue(data: Value, idAttr: string): Value {
    if data.Obj? && idAttr in data.props then data.props[idAttr] else Undefined
  }

  /**
   * `normalizeItem` (src/model.ts:211-233): the id is `id` when one is
   * passed and `data[idAttr]` otherwise; without one the item is skipped
   * and `null` returned. Otherwise each relation field is processed on a
   * clone, and the clone is merged into the model's table under the id.
   */
  function ItemWrites(schema: Schema, model: string, data: Value, id: Value): (r: Result<Normalized>)
    decreases data, 1, 0
    ensures r.Ok? ==> model in schema
    ensures r.Ok? && !id.Undefined? ==>
      && r.value.id == id
      && |r.value.writes| > 0
      && r.value.writes[|r.value.writes| - 1].table == model
      && r.value.writes[|r.value.writes| - 1].id == id
    ensures r.Ok? && id.Undefined? ==>
      var v := IdAttrValue(data, schema[model].idAttr);
      && r.value.id == (if v.Undefined? then Null else v)
      && (v.Undefined? <==> r.value.writes == [])
      && (!v.Undefined? ==> r.value.writes[|r.value.writes| - 1].table == model
                            && r.value.writes[|r.value.writes| - 1].id == v)
  {
    if model !in schema then Err(UnknownModel(model))
    else
      var opt := schema[model];
      var idVal :- if id.Undefined? then Get(data, opt.idAttr) else Ok(id);
      if idVal.Undefined? then Ok(Normalized(Null, []))
      else
        var out :- FieldsWrites(schema, opt.fields, 0, data, data);
        Ok(Normalized(idVal, out.writes + [Write(model, idVal, out.item)]))
  }

  /**
   * The `_.forOwn(currFields, ...)` of `normalizeItem` on `fields[i..]`
   * (src/model.ts:220-229): a field whose value is present and not
   * normalized-like is normalised into its target model first, and the
   * clone's field is replaced with what that returned.
   */
  function FieldsWrites(schema: Schema, fields: seq<Field>, i: nat, data: Value, item: Value): (r: Result<FieldsOut>)
    requires i <= |fields|
    decreases data, 0, |fields| - i
  {
    if i == |fields| then Ok(FieldsOut(item, []))
    else
      var f := fields[i];
      var v :- Get(data, f.name);
      if v.Undefined? || IsNormalizedLike(v) then FieldsWrites(schema, fields, i + 1, data, item)
      else
        var sub :- NormalizeWrites(schema, f.target, v);
        var rest :- FieldsWrites(schema, fields, i + 1, data, SetProp(item, f.name, sub.id));
        Ok(FieldsOut(rest.item, sub.writes + rest.writes))
  }

  /**
   * `normalize` (src/model.ts:168-191): without a truthy `data`, `id` is the
   * payload (a list of records or one record); with one, `id` is the id to
   * store `data` under.
   */
  function Plan(schema: Schema, model: string, id: Value, data: Value): Result<Normalized> {
    if !Truthy(data) then NormalizeWrites(schema, model, id)
    else ItemWrites(schema, model, data, id)
  }

  /** `normalize` on a store: the ids it returns and the store after its writes. */
  function Normalize(schema: Schema, store: Store, model: string, id: Value, data: Value): Result<(Value, Store)> {
    var n :- Plan(schema, model, id, data);
    var s :- ApplyWrites(store, n.writes);
    Ok((n.id, s))
  }

  // ---------------------------------------------------------------------
  // Returned ids

  /**
   * The ids `normalizeList` is expected to return: each item's `idAttr`
   * value in input order, leaving out the items that have none and those
   * whose id is `null`.
   */
  function PresentIds(items: seq<Value>, idAttr: string): seq<Value>
    decreases |items|
  {
    if |items| == 0 then []
    else
      var v := IdAttrValue(items[0], idAttr);
      (if v.Undefined? || v.Null? then [] else [v]) + PresentIds(items[1..], idAttr)
  }

  /** `normalizeList` returns the ids of the items it stored, in input order, and nothing for the others. */
  lemma {:induction false} ListIdsInOrder(schema: Schema, model: string, items: seq<Value>, i: nat)
    requires i <= |items|
    requires model in schema
    requires ListWrites(schema, model, items, i).Ok?
    ensures ListWrites(schema, model, items, i).value.ids == PresentIds(items[i..], schema[model].idAttr)
    ensures forall j :: i <= j < |items| ==> !items[j].Null? && !items[j].Undefined?
    decreases |items| - i
  {
    if i < |items| {
      ListIdsInOrder(schema, model, items, i + 1);
      assert items[i..][1..] == items[i + 1..];
    }
  }

  // ---------------------------------------------------------------------
  // The record written for an item

  /**
   * Processing the relation fields `fields[i..]` of an object payload:
   * a field that held a plain object (or an array with one) now holds what
   * normalising it into the target model returned; a normalized-like field
   * and every undeclared field keep their value; no key is added.
   */
  lemma {:induction false} FieldsRewrite(schema: Schema, fields: seq<Field>, i: nat, data: Value, item: Value)
    requires i <= |fields| && DistinctFieldNames(fields)
    requires data.Obj? && item.Obj? && item.props.Keys == data.props.Keys
    requires FieldsWrites(schema, fields, i, data, item).Ok?
    ensures var out := FieldsWrites(schema, fields, i, data, item).value.item;
      && out.Obj? && out.props.Keys == data.props.Keys
      && (forall k :: k in item.props && (forall j :: i <= j < |fields| ==> fields[j].name != k) ==>
            out.props[k] == item.props[k])
      && (forall j :: i <= j < |fields| && fields[j].name in data.props && IsNormalizedLike(data.props[fields[j].name]) ==>
            out.props[fields[j].name] == item.props[fields[j].name])
      && (forall j :: i <= j < |fields| && fields[j].name in data.props && !IsNormalizedLike(data.props[fields[j].name]) ==>
            && NormalizeWrites(schema, fields[j].target, data.props[fields[j].name]).Ok?
            && out.props[fields[j].name] == NormalizeWrites(schema, fields[j].target, data.props[fields[j].name]).value.id)
  {
    FieldsKeys(schema, fields, i, data, item);
    var out := FieldsWrites(schema, fields, i, data, item).value.item;
    forall k | k in item.props && (forall j :: i <= j < |fields| ==> fields[j].name != k)
      ensures out.props[k] == item.props[k]
    {
      FieldsKeep(schema, fields, i, data, item, k);
    }
    forall j | i <= j < |fields| && fields[j].name in data.props
      ensures IsNormalizedLike(data.props[fields[j].name]) ==> out.props[fields[j].name] == item.props[fields[j].name]
      ensures !IsNormalizedLike(data.props[fields[j].name]) ==>
        && NormalizeWrites(schema, fields[j].target, data.props[fields[j].name]).Ok?
        && out.props[fields[j].name] == NormalizeWrites(schema, fields[j].target, data.props[fields[j].name]).value.id
    {
      FieldsAt(schema, fields, i, data, item, j);
    }
  }

  /** Processing the relation fields keeps the clone an object with the payload's keys. */
  lemma {:induction false} FieldsKeys(schema: Schema, fields: seq<Field>, i: nat, data: Value, item: Value)
    requires i <= |fields|
    requires data.Obj? && item.Obj? && item.props.Keys == data.props.Keys
    requires FieldsWrites(schema, fields, i, data, item).Ok?
    ensures var out := FieldsWrites(schema, fields, i, data, item).value.item;
      out.Obj? && out.props.Keys == data.props.Keys
    decreases |fields| - i
  {
    if i < |fields| {
      var f := fields[i];
      var v := Get(data, f.name).value;
      if v.Undefined? || IsNormalizedLike(v) {
        FieldsKeys(schema, fields, i + 1, data, item);
      } else {
        var sub := NormalizeWrites(schema, f.target, v).value;
        FieldsKeys(schema, fields, i + 1, data, SetProp(item, f.name, sub.id));
      }
    }
  }

  /** A key none of `fields[i..]` names keeps its value in the clone. */
  lemma {:induction false} FieldsKeep(schema: Schema, fields: seq<Field>, i: nat, data: Value, item: Value, k: string)
    requires i <= |fields| && item.Obj? && k in item.props
    requires forall j :: i <= j < |fields| ==> fields[j].name != k
    requires FieldsWrites(schema, fields, i, data, item).Ok?
    ensures var out := FieldsWrites(schema, fields, i, data, item).value.item;
      out.Obj? && k in out.props && out.props[k] == item.props[k]
    decreases |fields| - i
  {
    if i < |fields| {
      var f := fields[i];
      var v := Get(data, f.name).value;
      if v.Undefined? || IsNormalizedLike(v) {
        FieldsKeep(schema, fields, i + 1, data, item, k);
      } else {
        var sub := NormalizeWrites(schema, f.target, v).value;
        FieldsKeep(schema, fields, i + 1, data, SetProp(item, f.name, sub.id), k);
      }
    }
  }

  /** Field `j` of the clone ends up with its value as given when normalized-like, and otherwise the ids normalising it returned. */
  lemma {:induction false} FieldsAt(schema: Schema, fields: seq<Field>, i: nat, data: Value, item: Value, j: nat)
    requires i <= j < |fields| && DistinctFieldNames(fields)
    requires data.Obj? && item.Obj? && item.props.Keys == data.props.Keys && fields[j].name in data.props
    requires FieldsWrites(schema, fields, i, data, item).Ok?
    ensures var out := FieldsWrites(schema, fields, i, data, item).value.item;
      var v := data.props[fields[j].name];
      && out.Obj? && fields[j].name in out.props
      && (IsNormalizedLike(v) ==> out.props[fields[j].name] == item.props[fields[j].name])
      && (!IsNormalizedLike(v) ==>
            NormalizeWrites(schema, fields[j].target, v).Ok? &&
            out.props[fields[j].name] == NormalizeWrites(schema, fields[j].target, v).value.id)
    decreases |fields| - i
  {
    var f := fields[i];
    var v := Get(data, f.name).value;
    if v.Undefined? || IsNormalizedLike(v) {
      if i == j {
        FieldsKeep(schema, fields, i + 1, data, item, f.name);
      } else {
        FieldsAt(schema, fields, i + 1, data, item, j);
      }
    } else {
      var sub := NormalizeWrites(schema, f.target, v).value;
      var item' := SetProp(item, f.name, sub.id);
      if i == j {
        FieldsKeep(schema, fields, i + 1, data, item', f.name);
      } else {
        assert fields[i].name != fields[j].name;
        FieldsAt(schema, fields, i + 1, data, item', j);
      }
    }
  }

  /**
   * `normalizeItem` on an object payload that has an id: the record it
   * merges into the model's table is the payload with every declared
   * relation field that was not normalized-like replaced by the id (or id
   * list) normalising it returned, and everything else as given.
   */
  lemma ItemRecordRewritten(schema: Schema, model: string, data: Value, id: Value)
    requires ItemWrites(schema, model, data, id).Ok?
    requires model in schema && DistinctFieldNames(schema[model].fields)
    requires data.Obj? && |ItemWrites(schema, model, data, id).value.writes| > 0
    ensures var ws := ItemWrites(schema, model, data, id).value.writes;
      var rec := ws[|ws| - 1].item;
      var fields := schema[model].fields;
      && rec.Obj? && rec.props.Keys == data.props.Keys
      && (forall k :: k in data.props && (forall j :: 0 <= j < |fields| ==> fields[j].name != k) ==>
            rec.props[k] == data.props[k])
      && (forall j :: 0 <= j < |fields| && fields[j].name in data.props && IsNormalizedLike(data.props[fields[j].name]) ==>
            rec.props[fields[j].name] == data.props[fields[j].name])
      && (forall j :: 0 <= j < |fields| && fields[j].name in data.props && !IsNormalizedLike(data.props[fields[j].name]) ==>
            && NormalizeWrites(schema, fields[j].target, data.props[fields[j].name]).Ok?
            && rec.props[fields[j].name] == NormalizeWrites(schema, fields[j].target, data.props[fields[j].name]).value.id)
  {
    FieldsRewrite(schema, schema[model].fields, 0, data, data);
  }

  // ---------------------------------------------------------------------
  // Which tables a payload writes

  /** Every write goes to `m`'s own table or to the table of a model reachable from `m`. */
  ghost predicate WritesWithin(schema: Schema, m: string, ws: seq<Write>) {
    forall i :: 0 <= i < |ws| ==> ws[i].table == m || Reachable(schema, m, ws[i].table)
  }

  lemma WithinConcat(schema: Schema, m: string, a: seq<Write>, b: seq<Write>)
    requires WritesWithin(schema, m, a) && WritesWithin(schema, m, b)
    ensures WritesWithin(schema, m, a + b)
  {
    forall i | 0 <= i < |a + b|
      ensures (a + b)[i].table == m || Reachable(schema, m, (a + b)[i].table)
    {
      if i >= |a| {
        assert (a + b)[i] == b[i - |a|];
      }
    }
  }

  /** Writes within a model that `m` refers to are within `m`. */
  lemma WithinLift(schema: Schema, m: string, t: string, ws: seq<Write>)
    requires Refers(schema, m, t) && WritesWithin(schema, t, ws)
    ensures WritesWithin(schema, m, ws)
  {
    ReachableStep(schema, m, t);
    forall i | 0 <= i < |ws| && ws[i].table != t
      ensures Reachable(schema, m, ws[i].table)
    {
      ReachableTrans(schema, m, t, ws[i].table);
    }
  }

  /**
   * Normalising into `model` writes only into `model` and the models its
   * closure names, which is why the snapshot `set` works on holds only
   * those tables.
   */
  lemma NormalizeWithin(schema: Schema, model: string, v: Value)
    requires NormalizeWrites(schema, model, v).Ok?
    ensures WritesWithin(schema, model, NormalizeWrites(schema, model, v).value.writes)
    decreases v, 3, 0
  {
    if v.Arr? {
      ListWithin(schema, model, v.items, 0);
    } else {
      ItemWithin(schema, model, v, Undefined);
    }
  }

  lemma ListWithin(schema: Schema, model: string, items: seq<Value>, i: nat)
    requires i <= |items| && ListWrites(schema, model, items, i).Ok?
    ensures WritesWithin(schema, model, ListWrites(schema, model, items, i).value.writes)
    decreases Arr(items), 2, |items| - i
  {
    if i < |items| {
      ItemWithin(schema, model, items[i], Undefined);
      ListWithin(schema, model, items, i + 1);
      WithinConcat(schema, model, ItemWrites(schema, model, items[i], Undefined).value.writes,
                   ListWrites(schema, model, items, i + 1).value.writes);
    }
  }

  lemma ItemWithin(schema: Schema, model: string, data: Value, id: Value)
    requires ItemWrites(schema, model, data, id).Ok?
    ensures WritesWithin(schema, model, ItemWrites(schema, model, data, id).value.writes)
    decreases data, 1, 0
  {
    var opt := schema[model];
    var idVal := if id.Undefined? then Get(data, opt.idAttr).value else id;
    if !idVal.Undefined? {
      var out := FieldsWrites(schema, opt.fields, 0, data, data).value;
      FieldsWithin(schema, model, 0, data, data);
      WithinConcat(schema, model, out.writes, [Write(model, idVal, out.item)]);
    }
  }

  lemma FieldsWithin(schema: Schema, model: string, i: nat, data: Value, item: Value)
    requires model in schema && i <= |schema[model].fields|
    requires FieldsWrites(schema, schema[model].fields, i, data, item).Ok?
    ensures WritesWithin(schema, model, FieldsWrites(schema, schema[model].fields, i, data, item).value.writes)
    decreases data, 0, |schema[model].fields| - i
  {
    var fields := schema[model].fields;
    if i < |fields| {
      var f := fields[i];
      var v := Get(data, f.name).value;
      if v.Undefined? || IsNormalizedLike(v) {
        FieldsWithin(schema, model, i + 1, data, item);
      } else {
        assert data.Obj? && v == data.props[f.name];
        var sub := NormalizeWrites(schema, f.target, v).value;
        NormalizeWithin(schema, f.target, v);
        assert Refers(schema, model, f.target);
        WithinLift(schema, model, f.target, sub.writes);
        FieldsWithin(schema, model, i + 1, data, SetProp(item, f.name, sub.id));
        WithinConcat(schema, model, sub.writes,
                     FieldsWrites(schema, fields, i + 1, data, SetProp(item, f.name, sub.id)).value.writes);
      }
    }
  }

  lemma PlanWithin(schema: Schema, model: string, id: Value, data: Value)
    requires Plan(schema, model, id, data).Ok?
    ensures WritesWithin(schema, model, Plan(schema, model, id, data).value.writes)
  {
    if !Truthy(data) {
      NormalizeWithin(schema, model, id);
    } else {
      ItemWithin(schema, model, data, id);
    }
  }

  // ---------------------------------------------------------------------
  // Folding the writes over the store

  /** Writing `a` and then `b` is writing `a + b`. */
  lemma {:induction false} ApplyAppend(store: Store, a: seq<Write>, b: seq<Write>)
    ensures ApplyWrites(store, a + b) ==
      (match ApplyWrites(store, a)
       case Err(e) => Err(e)
       case Ok(s) => ApplyWrites(s, b))
    decreases |a|
  {
    if |a| == 0 {
      assert a + b == b;
    } else {
      assert (a + b)[0] == a[0];
      assert (a + b)[1..] == a[1..] + b;
      var r := ChangeDataItem(store, a[0].table, a[0].id, a[0].item);
      if r.Ok? {
        ApplyAppend(r.value, a[1..], b);
      }
    }
  }

  /** The keys the writes in `ws` put into table `t`. */
  function WrittenKeys(ws: seq<Write>, t: string): set<string>
    decreases |ws|
  {
    if |ws| == 0 then {}
    else (if ws[0].table == t then {PropertyKey(ws[0].id)} else {}) + WrittenKeys(ws[1..], t)
  }

  /**
   * Writing never removes an entry: each table ends up with its old keys
   * plus the keys written into it, and an entry nobody wrote is unchanged.
   */
  lemma {:induction false} KeysAfter(store: Store, ws: seq<Write>)
    requires ApplyWrites(store, ws).Ok?
    ensures forall t :: t in store ==>
      ApplyWrites(store, ws).value[t].Keys == store[t].Keys + WrittenKeys(ws, t)
    ensures forall t, k :: t in store && k in store[t] && k !in WrittenKeys(ws, t) ==>
      ApplyWrites(store, ws).value[t][k] == store[t][k]
    decreases |ws|
  {
    if |ws| > 0 {
      var s1 := ChangeDataItem(store, ws[0].table, ws[0].id, ws[0].item).value;
      KeysAfter(s1, ws[1..]);
    }
  }

  // ---------------------------------------------------------------------
  // Writing what is already stored

  /** The entry `w` writes is stored and already holds every field of `w`'s record. */
  predicate Holds(store: Store, w: Write) {
    var key := PropertyKey(w.id);
    && w.table in store
    && key in store[w.table]
    && store[w.table][key].Obj?
    && forall f :: f in Spread(w.item) ==>
         f in store[w.table][key].props && store[w.table][key].props[f] == Spread(w.item)[f]
  }

  predicate HoldsAll(store: Store, ws: seq<Write>) {
    forall i :: 0 <= i < |ws| ==> Holds(store, ws[i])
  }

  /** Two writes to the same entry agree on every field they both set. */
  predicate Consistent(ws: seq<Write>) {
    forall i, j :: 0 <= i < j < |ws| && ws[i].table == ws[j].table && PropertyKey(ws[i].id) == PropertyKey(ws[j].id) ==>
      forall f :: f in Spread(ws[i].item) && f in Spread(ws[j].item) ==> Spread(ws[i].item)[f] == Spread(ws[j].item)[f]
  }

  /** Writes whose contents the store already holds change nothing. */
  lemma {:induction false} AlreadyStoredUnchanged(store: Store, ws: seq<Write>)
    requires HoldsAll(store, ws)
    ensures ApplyWrites(store, ws) == Ok(store)
    decreases |ws|
  {
    if |ws| > 0 {
      var w := ws[0];
      var key := PropertyKey(w.id);
      var props := store[w.table][key].props;
      assert Holds(store, w);
      assert props + Spread(w.item) == props;
      assert store[w.table][key := Obj(props)] == store[w.table];
      assert store[w.table := store[w.table]] == store;
      AlreadyStoredUnchanged(store, ws[1..]);
    }
  }

  /** A later write that agrees with an earlier one on their common fields keeps the earlier one held. */
  lemma HoldsKept(store: Store, earlier: Write, w: Write)
    requires Holds(store, earlier) && w.table in store
    requires earlier.table == w.table && PropertyKey(earlier.id) == PropertyKey(w.id) ==>
      forall f :: f in Spread(earlier.item) && f in Spread(w.item) ==> Spread(earlier.item)[f] == Spread(w.item)[f]
    ensures Holds(ChangeDataItem(store, w.table, w.id, w.item).value, earlier)
  {
  }

  /** After consistent writes, the store holds every one of them. */
  lemma {:induction false} ApplyEstablishes(store: Store, ws: seq<Write>)
    requires Consistent(ws) && ApplyWrites(store, ws).Ok?
    ensures HoldsAll(ApplyWrites(store, ws).value, ws)
    decreases |ws|
  {
    if |ws| > 0 {
      var n := |ws| - 1;
      var a, w := ws[..n], ws[n];
      assert ws == a + [w];
      ApplyAppend(store, a, [w]);
      ConsistentPrefix(ws, n);
      ApplyEstablishes(store, a);
      var ra := ApplyWrites(store, a).value;
      ApplyOne(ra, w);
      HoldsAfterLast(ra, a, w);
    }
  }

  lemma ApplyOne(store: Store, w: Write)
    ensures ApplyWrites(store, [w]) == ChangeDataItem(store, w.table, w.id, w.item)
  {
    var r := ChangeDataItem(store, w.table, w.id, w.item);
    if r.Ok? {
      assert [w][1..] == [];
    }
  }

  lemma ConsistentPrefix(ws: seq<Write>, n: nat)
    requires Consistent(ws) && n <= |ws|
    ensures Consistent(ws[..n])
  {
    forall i, j | 0 <= i < j < n ensures ws[..n][i] == ws[i] && ws[..n][j] == ws[j] { }
  }

  /** Writes the store holds stay held after one more write that is consistent with them. */
  lemma HoldsAfterLast(store: Store, a: seq<Write>, w: Write)
    requires HoldsAll(store, a) && w.table in store && Consistent(a + [w])
    ensures HoldsAll(ChangeDataItem(store, w.table, w.id, w.item).value, a + [w])
  {
    var ws := a + [w];
    var r := ChangeDataItem(store, w.table, w.id, w.item).value;
    forall i | 0 <= i < |ws|
      ensures Holds(r, ws[i])
    {
      if i < |a| {
        assert ws[i] == a[i] && ws[|a|] == w;
        HoldsKept(store, a[i], w);
      }
    }
  }

  /**
   * The fields the writes in `ws` merge into entry `k` of table `t`, a
   * later write overriding an earlier one on a field both set.
   */
  function Pending(ws: seq<Write>, t: string, k: string): map<string, Value>
    decreases |ws|
  {
    if |ws| == 0 then map[]
    else (if ws[0].table == t && PropertyKey(ws[0].id) == k then Spread(ws[0].item) else map[]) + Pending(ws[1..], t, k)
  }

  /** An entry the writes never name has nothing pending. */
  lemma {:induction false} PendingEmpty(ws: seq<Write>, t: string, k: string)
    requires k !in WrittenKeys(ws, t)
    ensures Pending(ws, t, k) == map[]
    decreases |ws|
  {
    if |ws| > 0 {
      PendingEmpty(ws[1..], t, k);
    }
  }

  /** One write, entry by entry: the entry it names gets its record merged in, every other entry reads as before. */
  lemma ChangeLookup(store: Store, w: Write, t: string, k: string)
    requires w.table in store && t in store
    ensures Lookup(ChangeDataItem(store, w.table, w.id, w.item).value[t], k) ==
      if w.table == t && PropertyKey(w.id) == k then Obj(Spread(Lookup(store[t], k)) + Spread(w.item))
      else Lookup(store[t], k)
  {
  }

  /**
   * Entry `k` of table `t` after the writes: when written, its old fields
   * (none when it held no object) overlaid with everything the writes
   * merged into it, in order; otherwise what it was.
   */
  lemma {:induction false} LookupAfter(store: Store, ws: seq<Write>, t: string, k: string)
    requires ApplyWrites(store, ws).Ok? && t in store
    ensures Lookup(ApplyWrites(store, ws).value[t], k) ==
      if k in WrittenKeys(ws, t) then Obj(Spread(Lookup(store[t], k)) + Pending(ws, t, k))
      else Lookup(store[t], k)
    decreases |ws|
  {
    if |ws| > 0 {
      var w := ws[0];
      var s1 := ChangeDataItem(store, w.table, w.id, w.item).value;
      var rest := ws[1..];
      assert ApplyWrites(store, ws) == ApplyWrites(s1, rest);
      ChangeLookup(store, w, t, k);
      LookupAfter(s1, rest, t, k);
      var hit := w.table == t && PropertyKey(w.id) == k;
      if k !in WrittenKeys(rest, t) {
        PendingEmpty(rest, t, k);
      }
      MergeJoin(Lookup(ApplyWrites(s1, rest).value[t], k), Lookup(s1[t], k), Lookup(store[t], k),
                Spread(w.item), Pending(rest, t, k), Pending(ws, t, k), hit, k in WrittenKeys(rest, t));
    }
  }

  /** The map algebra of one step of `LookupAfter`: merging `own`, then `later`, is merging their union. */
  lemma MergeJoin(after: Value, mid: Value, before: Value, own: map<string, Value>, later: map<string, Value>,
                  all: map<string, Value>, hit: bool, inRest: bool)
    requires mid == if hit then Obj(Spread(before) + own) else before
    requires after == if inRest then Obj(Spread(mid) + later) else mid
    requires all == (if hit then own else map[]) + later
    requires !inRest ==> later == map[]
    ensures after == if hit || inRest then Obj(Spread(before) + all) else before
  {
    if hit && inRest {
      assert (Spread(before) + own) + later == Spread(before) + (own + later);
    } else if hit {
      assert own + later == own;
    } else if inRest {
      assert map[] + later == later;
    }
  }

  /** Entry by entry, a second run of the same writes reads as the first left it. */
  lemma EntryIdempotent(store: Store, ws: seq<Write>, t: string, k: string)
    requires ApplyWrites(store, ws).Ok? && t in store
    ensures var s1 := ApplyWrites(store, ws).value;
      ApplyWrites(s1, ws).Ok? && Lookup(ApplyWrites(s1, ws).value[t], k) == Lookup(s1[t], k)
  {
    var s1 := ApplyWrites(store, ws).value;
    assert ApplyWrites(s1, ws).Ok?;
    LookupAfter(store, ws, t, k);
    LookupAfter(s1, ws, t, k);
    MergeTwice(Lookup(ApplyWrites(s1, ws).value[t], k), Lookup(s1[t], k), Lookup(store[t], k),
               Pending(ws, t, k), k in WrittenKeys(ws, t));
  }

  /** Merging the same fields a second time changes nothing. */
  lemma MergeTwice(second: Value, first: Value, before: Value, p: map<string, Value>, written: bool)
    requires first == if written then Obj(Spread(before) + p) else before
    requires second == if written then Obj(Spread(first) + p) else first
    ensures second == first
  {
    if written {
      assert (Spread(before) + p) + p == Spread(before) + p;
    }
  }

  /** Table by table, a second run of the same writes leaves what the first left. */
  lemma TableIdempotent(store: Store, ws: seq<Write>, t: string)
    requires ApplyWrites(store, ws).Ok? && t in store
    ensures var s1 := ApplyWrites(store, ws).value;
      ApplyWrites(s1, ws).Ok? && ApplyWrites(s1, ws).value[t] == s1[t]
  {
    var s1 := ApplyWrites(store, ws).value;
    assert ApplyWrites(s1, ws).Ok?;
    var s2 := ApplyWrites(s1, ws).value;
    KeysAfter(store, ws);
    KeysAfter(s1, ws);
    assert s2[t].Keys == s1[t].Keys;
    forall k | k in s1[t]
      ensures s2[t][k] == s1[t][k]
    {
      EntryIdempotent(store, ws, t, k);
    }
  }

  /**
   * Normalising the same payload twice: the second run leaves the store as
   * the first one left it, so `set` does not commit again. This holds even
   * when the payload merges different contents into one entry, since each
   * entry then already ends in the merge of all of them.
   */
  lemma Idempotent(store: Store, ws: seq<Write>)
    requires ApplyWrites(store, ws).Ok?
    ensures ApplyWrites(ApplyWrites(store, ws).value, ws) == ApplyWrites(store, ws)
  {
    var s1 := ApplyWrites(store, ws).value;
    assert ApplyWrites(s1, ws).Ok?;
    var s2 := ApplyWrites(s1, ws).value;
    forall t | t in s1
      ensures s2[t] == s1[t]
    {
      TableIdempotent(store, ws, t);
    }
    assert s2.Keys == s1.Keys;
    assert s2 == s1;
  }
}
