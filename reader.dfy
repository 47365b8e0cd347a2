/**
 * The readers of src/model.ts: `getValue` (lookup of one id or a list of
 * ids in a table), `getDataItemRecursively` (replacing relation ids with
 * the records they name, recursively) and the deep read of
 * `getSelectorItem`.
 *
 * `getValue` with a `parse` callback applies it before it drops missing
 * entries, so a deep read calls `getDataItemRecursively` on `null` or
 * `undefined` whenever a relation names a removed or absent record; for a
 * target model with relation fields that is a property read on `null`.
 * `ParseOrder` selects that order (`ParseThenFilter`) or the order the
 * tests expect (`FilterThenParse`).
 */
module Reader {
  import opened Values
  import opened Registry

  /** Where `getValue` applies its `parse` callback relative to dropping missing entries. */
  datatype ParseOrder = ParseThenFilter | FilterThenParse

  /** A model's table; the table of a model that was never written is the atom default `{}`. */
  function TableOf(store: Store, m: string): Table {
    if m in store then store[m] else map[]
  }

  /**
   * The records stored for `ids`, in order, leaving out ids that are
   * absent or whose entry is a tombstone (`dataList` filtered by `!!x`).
   */
  function ShallowList(table: Table, ids: seq<Value>): (r: seq<Value>)
    ensures |r| <= |ids|
    ensures forall i :: 0 <= i < |r| ==> Truthy(r[i])
    decreases |ids|
  {
    if |ids| == 0 then []
    else
      var rec := Lookup(table, PropertyKey(ids[0]));
      (if Truthy(rec) then [rec] else []) + ShallowList(table, ids[1..])
  }

  /**
   * `getValue(dataMap, ids)` without `parse` (src/model.ts:122-142):
   * `null` for a `null` or `undefined` argument; for a list, the records
   * found; for one id, its record or `null`.
   */
  function GetValue(table: Table, ids: Value): (r: Value)
    ensures ids.Null? || ids.Undefined? ==> r.Null?
    ensures ids.Arr? ==> r.Arr? && forall i :: 0 <= i < |r.items| ==> !r.items[i].Null? && !r.items[i].Undefined?
    ensures !ids.Arr? && !ids.Null? && !ids.Undefined? ==>
      var key := PropertyKey(ids);
      && (r.Null? <==> key !in table || table[key].Null? || table[key].Undefined?)
      && (!r.Null? ==> r == table[key])
  {
    if ids.Null? || ids.Undefined? then Null
    else if ids.Arr? then Arr(ShallowList(table, ids.items))
    else
      var rec := Lookup(table, PropertyKey(ids));
      if rec.Undefined? then Null else rec
  }

  /** Reading a list is reading its parts one after the other: request order is kept. */
  lemma {:induction false} ShallowListConcat(table: Table, a: seq<Value>, b: seq<Value>)
    ensures ShallowList(table, a + b) == ShallowList(table, a) + ShallowList(table, b)
    decreases |a|
  {
    if |a| == 0 {
      assert a + b == b;
    } else {
      assert (a + b)[0] == a[0];
      assert (a + b)[1..] == a[1..] + b;
      ShallowListConcat(table, a[1..], b);
    }
  }

  /** One id reads as its record when that is stored and not a tombstone, and as nothing otherwise. */
  lemma ShallowListOne(table: Table, id: Value)
    ensures var key := PropertyKey(id);
      ShallowList(table, [id]) == (if key in table && Truthy(table[key]) then [table[key]] else [])
  {
  }

  /** When every id names a stored record, the list read returns those records, one per id, in order. */
  lemma {:induction false} ShallowListAllPresent(table: Table, ids: seq<Value>)
    requires forall i :: 0 <= i < |ids| ==> PropertyKey(ids[i]) in table && Truthy(table[PropertyKey(ids[i])])
    ensures |ShallowList(table, ids)| == |ids|
    ensures forall i :: 0 <= i < |ids| ==> ShallowList(table, ids)[i] == table[PropertyKey(ids[i])]
    decreases |ids|
  {
    if |ids| > 0 {
      ShallowListAllPresent(table, ids[1..]);
      assert forall i :: 1 <= i < |ids| ==> ids[1..][i - 1] == ids[i];
    }
  }

  /** A record appears in a list read exactly when one of the ids names it and it is not a tombstone. */
  lemma {:induction false} ShallowListMembers(table: Table, ids: seq<Value>, x: Value)
    ensures x in ShallowList(table, ids) <==>
      exists i :: 0 <= i < |ids| && PropertyKey(ids[i]) in table && Truthy(x) && table[PropertyKey(ids[i])] == x
    decreases |ids|
  {
    if |ids| > 0 {
      ShallowListMembers(table, ids[1..], x);
      if x in ShallowList(table, ids[1..]) {
        var i :| 0 <= i < |ids[1..]| && PropertyKey(ids[1..][i]) in table && Truthy(x) && table[PropertyKey(ids[1..][i])] == x;
        assert ids[i + 1] == ids[1..][i];
      }
      if exists i :: 0 <= i < |ids| && PropertyKey(ids[i]) in table && Truthy(x) && table[PropertyKey(ids[i])] == x {
        var i :| 0 <= i < |ids| && PropertyKey(ids[i]) in table && Truthy(x) && table[PropertyKey(ids[i])] == x;
        if i > 0 {
          assert ids[1..][i - 1] == ids[i];
        }
      }
    }
  }

  /**
   * `rank` orders the registered models so that every relation field
   * leads to a lower rank; deep reads recurse along relations and have no
   * guard against cycles, so they are defined for such schemas only.
   */
  ghost predicate Ranked(schema: Schema, rank: map<string, nat>) {
    forall m :: m in schema ==>
      && m in rank
      && forall i :: 0 <= i < |schema[m].fields| && schema[m].fields[i].target in schema ==>
           schema[m].fields[i].target in rank && rank[schema[m].fields[i].target] < rank[m]
  }

  function RankOf(rank: map<string, nat>, m: string): nat {
    if m in rank then rank[m] else 0
  }

  /**
   * `getDataItemRecursively` (src/model.ts:151-166): on a clone of `item`,
   * every relation field that is present is replaced by `getValue` of its
   * ids in the target model's table, each record found being hydrated in
   * turn.
   */
  function Hydrate(schema: Schema, store: Store, rank: map<string, nat>, order: ParseOrder, model: string, item: Value): (r: Result<Value>)
    requires Ranked(schema, rank)
    ensures r.Ok? ==> model in schema
    ensures model in schema && schema[model].fields == [] ==> r == Ok(item)
    decreases RankOf(rank, model), 2, 0
  {
    if model !in schema then Err(UnknownModel(model))
    else HydrateFields(schema, store, rank, order, model, 0, item)
  }

  /** The `_.forOwn(fields, ...)` of `getDataItemRecursively` on `fields[i..]`. */
  function HydrateFields(schema: Schema, store: Store, rank: map<string, nat>, order: ParseOrder, model: string, i: nat, item: Value): (r: Result<Value>)
    requires Ranked(schema, rank) && model in schema && i <= |schema[model].fields|
    ensures i == |schema[model].fields| ==> r == Ok(item)
    decreases RankOf(rank, model), 1, |schema[model].fields| - i
  {
    var fields := schema[model].fields;
    if i == |fields| then Ok(item)
    else
      var f := fields[i];
      var subModelIds :- Get(item, f.name);
      if subModelIds.Undefined? then HydrateFields(schema, store, rank, order, model, i + 1, item)
      else if f.target !in schema then Err(UnknownModel(f.target))
      else
        var sub :- ParsedRead(schema, store, rank, order, f.target, subModelIds);
        HydrateFields(schema, store, rank, order, model, i + 1, SetProp(item, f.name, sub))
  }

  /**
   * `getValue(table, ids, parse)` with `parse` hydrating records of
   * `model` (src/model.ts:122-142, 161), in the given order.
   */
  function ParsedRead(schema: Schema, store: Store, rank: map<string, nat>, order: ParseOrder, model: string, ids: Value): (r: Result<Value>)
    requires Ranked(schema, rank) && model in schema
    ensures ids.Null? || ids.Undefined? ==> r == Ok(Null)
    ensures r.Ok? && ids.Arr? ==> r.value.Arr? && |r.value.items| <= |ids.items|
    decreases RankOf(rank, model), 4, 0
  {
    if ids.Null? || ids.Undefined? then Ok(Null)
    else if ids.Arr? then
      var list :- ParsedList(schema, store, rank, order, model, ids.items, 0);
      Ok(Arr(list))
    else
      var rec := Lookup(TableOf(store, model), PropertyKey(ids));
      match order
      case ParseThenFilter =>
        var p :- Hydrate(schema, store, rank, order, model, rec);
        Ok(if p.Undefined? then Null else p)
      case FilterThenParse =>
        if rec.Null? || rec.Undefined? then Ok(Null)
        else Hydrate(schema, store, rank, order, model, rec)
  }

  /** The list branch of `ParsedRead` on `ids[j..]`. */
  function ParsedList(schema: Schema, store: Store, rank: map<string, nat>, order: ParseOrder, model: string, ids: seq<Value>, j: nat): (r: Result<seq<Value>>)
    requires Ranked(schema, rank) && model in schema && j <= |ids|
    ensures r.Ok? ==> |r.value| <= |ids| - j
    decreases RankOf(rank, model), 3, |ids| - j
  {
    if j == |ids| then Ok([])
    else
      var rec := Lookup(TableOf(store, model), PropertyKey(ids[j]));
      match order
      case ParseThenFilter =>
        var p :- Hydrate(schema, store, rank, order, model, rec);
        var rest :- ParsedList(schema, store, rank, order, model, ids, j + 1);
        Ok((if Truthy(p) then [p] else []) + rest)
      case FilterThenParse =>
        if !Truthy(rec) then ParsedList(schema, store, rank, order, model, ids, j + 1)
        else
          var p :- Hydrate(schema, store, rank, order, model, rec);
          var rest :- ParsedList(schema, store, rank, order, model, ids, j + 1);
          Ok([p] + rest)
  }

  /** Hydrates each record of `recs[j..]`: the `_.map(data, ...)` of `getSelectorItem`. */
  function HydrateAll(schema: Schema, store: Store, rank: map<string, nat>, order: ParseOrder, model: string, recs: seq<Value>, j: nat): (r: Result<seq<Value>>)
    requires Ranked(schema, rank) && j <= |recs|
    ensures r.Ok? ==>
      && |r.value| == |recs| - j
      && forall k :: j <= k < |recs| ==> Hydrate(schema, store, rank, order, model, recs[k]) == Ok(r.value[k - j])
    ensures r.Err? <==> exists k :: j <= k < |recs| && Hydrate(schema, store, rank, order, model, recs[k]).Err?
    decreases |recs| - j
  {
    if j == |recs| then Ok([])
    else
      var p :- Hydrate(schema, store, rank, order, model, recs[j]);
      var rest :- HydrateAll(schema, store, rank, order, model, recs, j + 1);
      Ok([p] + rest)
  }

  /**
   * The deep read of `getSelectorItem` (src/model.ts:34-46): the records
   * are looked up without `parse`, so missing and removed top-level ids
   * are dropped first; each record found is then hydrated.
   */
  function DeepRead(schema: Schema, store: Store, rank: map<string, nat>, order: ParseOrder, model: string, ids: Value): (r: Result<Value>)
    requires Ranked(schema, rank)
    ensures ids.Null? || ids.Undefined? ==> r == Ok(Null)
    ensures r.Ok? && ids.Arr? ==>
      var recs := ShallowList(TableOf(store, model), ids.items);
      && r.value.Arr? && |r.value.items| == |recs|
      && forall k :: 0 <= k < |recs| ==> Hydrate(schema, store, rank, order, model, recs[k]) == Ok(r.value.items[k])
    ensures ids.Arr? ==>
      var recs := ShallowList(TableOf(store, model), ids.items);
      (r.Err? <==> exists k :: 0 <= k < |recs| && Hydrate(schema, store, rank, order, model, recs[k]).Err?)
  {
    var data := GetValue(TableOf(store, model), ids);
    if data.Null? then Ok(Null)
    else if ids.Arr? then
      assert data.items == ShallowList(TableOf(store, model), ids.items);
      var list :- HydrateAll(schema, store, rank, order, model, data.items, 0);
      Ok(Arr(list))
    else Hydrate(schema, store, rank, order, model, data)
  }

  // ---------------------------------------------------------------------
  // Properties of the readers

  /** A relation field whose value is present but whose read throws: an unregistered target, or a throw further down. */
  ghost predicate FieldThrows(schema: Schema, store: Store, rank: map<string, nat>, order: ParseOrder, f: Field, v: Value)
    requires Ranked(schema, rank)
  {
    !v.Undefined? && (f.target !in schema || ParsedRead(schema, store, rank, order, f.target, v).Err?)
  }

  /**
   * `out` is what the clone `item` becomes once the relation fields `i..`
   * are hydrated: it has the same keys; a key no later field names keeps
   * its value; a relation field holding `undefined` stays so; any other
   * holds what `getValue` with hydration read for the ids it held.
   */
  ghost predicate HydratedFrom(schema: Schema, store: Store, rank: map<string, nat>, order: ParseOrder, model: string,
                               i: nat, item: Value, out: Value)
    requires Ranked(schema, rank) && model in schema && item.Obj?
  {
    var fields := schema[model].fields;
    && out.Obj? && out.props.Keys == item.props.Keys
    && (forall k :: k in item.props && (forall j :: i <= j < |fields| ==> fields[j].name != k) ==>
          out.props[k] == item.props[k])
    && forall j :: i <= j < |fields| && fields[j].name in item.props ==>
         (if item.props[fields[j].name].Undefined? then out.props[fields[j].name] == item.props[fields[j].name]
          else (fields[j].target in schema &&
                ParsedRead(schema, store, rank, order, fields[j].target, item.props[fields[j].name]) == Ok(out.props[fields[j].name])))
  }

  /**
   * What hydrating the relation fields `i..` of the object `item` gives:
   * a throw exactly when a present relation field throws, and otherwise
   * the record `HydratedFrom` describes.
   */
  ghost predicate ObjectHydrated(schema: Schema, store: Store, rank: map<string, nat>, order: ParseOrder, model: string,
                                 i: nat, item: Value, r: Result<Value>)
    requires Ranked(schema, rank) && model in schema && item.Obj?
  {
    var fields := schema[model].fields;
    && (r.Err? <==> exists j :: i <= j < |fields| && fields[j].name in item.props &&
                                FieldThrows(schema, store, rank, order, fields[j], item.props[fields[j].name]))
    && (r.Ok? ==> HydratedFrom(schema, store, rank, order, model, i, item, r.value))
  }

  /**
   * `getDataItemRecursively` (src/model.ts:151-166) from field `i` on: a
   * record that is `null` or `undefined` throws on its first relation field;
   * a primitive has no such property and is returned as it is; an object
   * throws exactly when one of its present relation fields does, and
   * otherwise becomes the record `HydratedFrom` describes.
   */
  lemma {:induction false} HydrateFieldsEffect(schema: Schema, store: Store, rank: map<string, nat>, order: ParseOrder,
                                               model: string, i: nat, item: Value)
    requires Ranked(schema, rank) && model in schema && i <= |schema[model].fields|
    requires DistinctFieldNames(schema[model].fields)
    ensures var r := HydrateFields(schema, store, rank, order, model, i, item);
      && ((item.Null? || item.Undefined?) && i < |schema[model].fields| ==> r == Err(TypeError))
      && (!item.Obj? && !item.Null? && !item.Undefined? ==> r == Ok(item))
    ensures item.Obj? ==> ObjectHydrated(schema, store, rank, order, model, i, item,
                                         HydrateFields(schema, store, rank, order, model, i, item))
    decreases |schema[model].fields| - i
  {
    var fields := schema[model].fields;
    if i < |fields| && item.Obj? {
      var f := fields[i];
      var v := Get(item, f.name).value;
      if v.Undefined? {
        HydrateFieldsEffect(schema, store, rank, order, model, i + 1, item);
        HydrateSkipped(schema, store, rank, order, model, i, item);
      } else if f.target in schema && ParsedRead(schema, store, rank, order, f.target, v).Ok? {
        var sub := ParsedRead(schema, store, rank, order, f.target, v).value;
        var item' := SetProp(item, f.name, sub);
        HydrateFieldsEffect(schema, store, rank, order, model, i + 1, item');
        HydrateReplaced(schema, store, rank, order, model, i, item, sub);
      } else {
        assert FieldThrows(schema, store, rank, order, fields[i], item.props[fields[i].name]);
      }
    } else if i < |fields| && !item.Null? && !item.Undefined? {
      HydrateFieldsEffect(schema, store, rank, order, model, i + 1, item);
    }
  }

  /** Step of `HydrateFieldsEffect` for a relation field that is absent or `undefined`. */
  lemma HydrateSkipped(schema: Schema, store: Store, rank: map<string, nat>, order: ParseOrder, model: string, i: nat, item: Value)
    requires Ranked(schema, rank) && model in schema && i < |schema[model].fields|
    requires DistinctFieldNames(schema[model].fields) && item.Obj?
    requires Get(item, schema[model].fields[i].name) == Ok(Undefined)
    requires ObjectHydrated(schema, store, rank, order, model, i + 1, item,
                            HydrateFields(schema, store, rank, order, model, i + 1, item))
    ensures ObjectHydrated(schema, store, rank, order, model, i, item, HydrateFields(schema, store, rank, order, model, i, item))
  {
    var fields := schema[model].fields;
    var r := HydrateFields(schema, store, rank, order, model, i, item);
    assert r == HydrateFields(schema, store, rank, order, model, i + 1, item);
    if r.Ok? {
      var out := r.value;
      forall j | i <= j < |fields| && fields[j].name in item.props
        ensures (if item.props[fields[j].name].Undefined? then out.props[fields[j].name] == item.props[fields[j].name]
                 else (fields[j].target in schema &&
                       ParsedRead(schema, store, rank, order, fields[j].target, item.props[fields[j].name]) == Ok(out.props[fields[j].name])))
      {
        if j == i {
          assert forall l :: i + 1 <= l < |fields| ==> fields[l].name != fields[i].name;
        }
      }
    }
  }

  /** Step of `HydrateFieldsEffect` for a relation field whose read gave `sub`. */
  lemma HydrateReplaced(schema: Schema, store: Store, rank: map<string, nat>, order: ParseOrder, model: string, i: nat,
                        item: Value, sub: Value)
    requires Ranked(schema, rank) && model in schema && i < |schema[model].fields|
    requires DistinctFieldNames(schema[model].fields) && item.Obj?
    requires var f := schema[model].fields[i];
      && f.name in item.props && !item.props[f.name].Undefined? && f.target in schema
      && ParsedRead(schema, store, rank, order, f.target, item.props[f.name]) == Ok(sub)
    requires var item' := SetProp(item, schema[model].fields[i].name, sub);
      ObjectHydrated(schema, store, rank, order, model, i + 1, item',
                     HydrateFields(schema, store, rank, order, model, i + 1, item'))
    ensures ObjectHydrated(schema, store, rank, order, model, i, item, HydrateFields(schema, store, rank, order, model, i, item))
  {
    var fields := schema[model].fields;
    var item' := SetProp(item, fields[i].name, sub);
    var r := HydrateFields(schema, store, rank, order, model, i, item);
    assert r == HydrateFields(schema, store, rank, order, model, i + 1, item');
    assert forall l :: i + 1 <= l < |fields| ==> fields[l].name != fields[i].name;
    assert forall l :: i + 1 <= l < |fields| && fields[l].name in item.props ==>
      item'.props[fields[l].name] == item.props[fields[l].name];
    assert !FieldThrows(schema, store, rank, order, fields[i], item.props[fields[i].name]);
    if r.Err? {
      var j :| i + 1 <= j < |fields| && fields[j].name in item'.props &&
        FieldThrows(schema, store, rank, order, fields[j], item'.props[fields[j].name]);
      assert fields[j].name in item.props;
    } else {
      assert HydratedFrom(schema, store, rank, order, model, i + 1, item', r.value);
    }
  }

  /**
   * A relation to a model without relation fields reads a missing or
   * removed record as `null`, in either order.
   */
  lemma RemovedLeafReadsNull(schema: Schema, store: Store, rank: map<string, nat>, order: ParseOrder, model: string, id: Value)
    requires Ranked(schema, rank) && model in schema && schema[model].fields == []
    requires !id.Arr? && !id.Null? && !id.Undefined?
    requires var t := TableOf(store, model); PropertyKey(id) !in t || t[PropertyKey(id)].Null?
    ensures ParsedRead(schema, store, rank, order, model, id) == Ok(Null)
  {
  }

  /**
   * In the corrected order, records a list of ids names but that are
   * missing or removed are dropped before hydration: the hydrated list is
   * the shallow list with each record hydrated.
   */
  lemma {:induction false} FilteredListHydrates(schema: Schema, store: Store, rank: map<string, nat>, model: string, ids: seq<Value>, j: nat)
    requires Ranked(schema, rank) && model in schema && j <= |ids|
    ensures ParsedList(schema, store, rank, FilterThenParse, model, ids, j) ==
      HydrateAll(schema, store, rank, FilterThenParse, model, ShallowList(TableOf(store, model), ids[j..]), 0)
    decreases |ids| - j
  {
    var table := TableOf(store, model);
    if j < |ids| {
      FilteredListHydrates(schema, store, rank, model, ids, j + 1);
      assert ids[j..] == [ids[j]] + ids[j + 1..];
      ShallowListConcat(table, [ids[j]], ids[j + 1..]);
      var rec := Lookup(table, PropertyKey(ids[j]));
      var rest := ShallowList(table, ids[j + 1..]);
      if Truthy(rec) {
        HydrateAllCons(schema, store, rank, FilterThenParse, model, rec, rest);
      } else {
        assert ShallowList(table, ids[j..]) == rest;
      }
    }
  }

  /** Dropping an id whose record is missing or falsy does not change the shallow list. */
  lemma ShallowListSkips(table: Table, a: seq<Value>, x: Value, b: seq<Value>)
    requires PropertyKey(x) !in table || !Truthy(table[PropertyKey(x)])
    ensures ShallowList(table, a + [x] + b) == ShallowList(table, a + b)
  {
    ShallowListConcat(table, a + [x], b);
    ShallowListConcat(table, a, [x]);
    ShallowListConcat(table, a, b);
    ShallowListOne(table, x);
  }

  /**
   * An id of a list whose record is missing or removed has no effect on
   * the deep read: the lookup without `parse` drops it before anything is
   * hydrated.
   */
  lemma DeepReadDropsMissing(schema: Schema, store: Store, rank: map<string, nat>, order: ParseOrder, model: string,
                             a: seq<Value>, x: Value, b: seq<Value>)
    requires Ranked(schema, rank)
    requires PropertyKey(x) !in TableOf(store, model) || !Truthy(TableOf(store, model)[PropertyKey(x)])
    ensures DeepRead(schema, store, rank, order, model, Arr(a + [x] + b)) == DeepRead(schema, store, rank, order, model, Arr(a + b))
  {
    var table := TableOf(store, model);
    ShallowListSkips(table, a, x, b);
    assert GetValue(table, Arr(a + [x] + b)) == GetValue(table, Arr(a + b));
  }

  lemma HydrateAllCons(schema: Schema, store: Store, rank: map<string, nat>, order: ParseOrder, model: string, rec: Value, rest: seq<Value>)
    requires Ranked(schema, rank)
    ensures HydrateAll(schema, store, rank, order, model, [rec] + rest, 0) ==
      (match Hydrate(schema, store, rank, order, model, rec)
       case Err(e) => Err(e)
       case Ok(p) =>
         match HydrateAll(schema, store, rank, order, model, rest, 0)
         case Err(e) => Err(e)
         case Ok(ps) => Ok([p] + ps))
  {
    HydrateAllShift(schema, store, rank, order, model, [rec] + rest, 1);
    assert ([rec] + rest)[1..] == rest;
  }

  /** Hydrating from index `j` is hydrating the suffix from its start. */
  lemma {:induction false} HydrateAllShift(schema: Schema, store: Store, rank: map<string, nat>, order: ParseOrder, model: string, recs: seq<Value>, j: nat)
    requires Ranked(schema, rank) && j <= |recs|
    ensures HydrateAll(schema, store, rank, order, model, recs, j) == HydrateAll(schema, store, rank, order, model, recs[j..], 0)
    decreases |recs| - j
  {
    if j < |recs| {
      HydrateAllShift(schema, store, rank, order, model, recs, j + 1);
      HydrateAllShift(schema, store, rank, order, model, recs[j..], 1);
      assert recs[j..][1..] == recs[j + 1..];
    }
  }

  // ---------------------------------------------------------------------
  // A removed child of a model with relation fields

  /** Books with comments, comments with a user, as in the library's test fixtures. */
  function SmallSchema(): Schema {
    map[
      "Book" := ModelOpt("Book", "id", [Field("comments", "Comment")]),
      "Comment" := ModelOpt("Comment", "cid", [Field("user", "User")]),
      "User" := ModelOpt("User", "userId", [])
    ]
  }

  function SmallRank(): map<string, nat> {
    map["Book" := 2, "Comment" := 1, "User" := 0]
  }

  lemma SmallSchemaRanked()
    ensures Ranked(SmallSchema(), SmallRank())
  {
  }

  /** Book 1 lists comments c1 and c2; c1 has been removed. */
  function RemovedCommentStore(): Store {
    map[
      "Book" := map["1" := Obj(map["id" := Num(1), "comments" := Arr([Str("c1"), Str("c2")])])],
      "Comment" := map["c1" := Null, "c2" := Obj(map["cid" := Str("c2")])],
      "User" := map[]
    ]
  }

  /**
   * As written, reading book 1 deeply hydrates the tombstone of c1 before
   * dropping it, and Comment has a relation field: a property read on `null`.
   */
  lemma RemovedChildCrashesAsWritten()
    ensures Ranked(SmallSchema(), SmallRank())
    ensures DeepRead(SmallSchema(), RemovedCommentStore(), SmallRank(), ParseThenFilter, "Book", Num(1)) == Err(TypeError)
  {
  }

  lemma SurvivingCommentHydrates()
    ensures Ranked(SmallSchema(), SmallRank())
    ensures Hydrate(SmallSchema(), RemovedCommentStore(), SmallRank(), FilterThenParse, "Comment", Obj(map["cid" := Str("c2")]))
      == Ok(Obj(map["cid" := Str("c2")]))
  {
    var c2 := Obj(map["cid" := Str("c2")]);
    assert HydrateFields(SmallSchema(), RemovedCommentStore(), SmallRank(), FilterThenParse, "Comment", 1, c2) == Ok(c2);
  }

  /** In the corrected order the removed comment is dropped from book 1's comment list. */
  lemma CommentListDropsRemoved()
    ensures Ranked(SmallSchema(), SmallRank())
    ensures ParsedRead(SmallSchema(), RemovedCommentStore(), SmallRank(), FilterThenParse, "Comment", Arr([Str("c1"), Str("c2")]))
      == Ok(Arr([Obj(map["cid" := Str("c2")])]))
  {
    var schema, store, rank := SmallSchema(), RemovedCommentStore(), SmallRank();
    var c2 := Obj(map["cid" := Str("c2")]);
    var ids := [Str("c1"), Str("c2")];
    SurvivingCommentHydrates();
    assert Lookup(TableOf(store, "Comment"), PropertyKey(ids[1])) == c2;
    assert Lookup(TableOf(store, "Comment"), PropertyKey(ids[0])) == Null;
    assert ParsedList(schema, store, rank, FilterThenParse, "Comment", ids, 2) == Ok([]);
    assert [c2] + [] == [c2];
    assert ParsedList(schema, store, rank, FilterThenParse, "Comment", ids, 1) == Ok([c2]);
    assert ParsedList(schema, store, rank, FilterThenParse, "Comment", ids, 0) == Ok([c2]);
  }

  /** With missing entries dropped before hydration, book 1 reads with comment c2 only. */
  lemma RemovedChildDroppedCorrected()
    ensures Ranked(SmallSchema(), SmallRank())
    ensures DeepRead(SmallSchema(), RemovedCommentStore(), SmallRank(), FilterThenParse, "Book", Num(1)) ==
      Ok(Obj(map["id" := Num(1), "comments" := Arr([Obj(map["cid" := Str("c2")])])]))
  {
    var schema, store, rank := SmallSchema(), RemovedCommentStore(), SmallRank();
    var book := store["Book"]["1"];
    var c2 := Obj(map["cid" := Str("c2")]);
    assert PropertyKey(Num(1)) == "1";
    assert GetValue(TableOf(store, "Book"), Num(1)) == book;
    CommentListDropsRemoved();
    var hydrated := SetProp(book, "comments", Arr([c2]));
    assert HydrateFields(schema, store, rank, FilterThenParse, "Book", 1, hydrated) == Ok(hydrated);
    assert hydrated == Obj(map["id" := Num(1), "comments" := Arr([c2])]);
  }
}
