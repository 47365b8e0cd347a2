/**
 * Writing a nested payload with `set` and reading it back with the deep
 * read returns the payload (the library's tests write the books fixture
 * and read books, comments and tags back). The payload must be shaped the
 * way the schema describes: every record has a string or number id, and
 * every declared relation field that is present holds a nested record or
 * an array of nested records.
 */
module RoundTrip {
  import opened Values
  import opened Registry
  import opened Normalizer
  import opened Reader

  predicate IsIdValue(v: Value) {
    v.Str? || v.Num?
  }

  /** `x` is a record of model `m` as the schema describes it. */
  ghost predicate WellShaped(schema: Schema, m: string, x: Value)
    decreases x, 0
  {
    && m in schema
    && x.Obj?
    && var opt := schema[m];
    && opt.idAttr in x.props
    && IsIdValue(x.props[opt.idAttr])
    && DistinctFieldNames(opt.fields)
    && (forall j :: 0 <= j < |opt.fields| ==> opt.fields[j].name != opt.idAttr && opt.fields[j].target in schema)
    && forall j :: 0 <= j < |opt.fields| && opt.fields[j].name in x.props ==>
         ShapedRelation(schema, opt.fields[j].target, x.props[opt.fields[j].name])
  }

  /** The value of a relation field: one nested record of `t`, or an array of them. */
  ghost predicate ShapedRelation(schema: Schema, t: string, v: Value)
    decreases v, 1
  {
    || (v.Obj? && WellShaped(schema, t, v))
    || (v.Arr? && forall k :: 0 <= k < |v.items| ==> WellShaped(schema, t, v.items[k]))
  }

  /** What a relation field holds once normalised: the id of the nested record, or the list of their ids. */
  function IdsOf(idAttr: string, v: Value): Value {
    if v.Arr? then Arr(seq(|v.items|, k requires 0 <= k < |v.items| => IdAttrValue(v.items[k], idAttr)))
    else IdAttrValue(v, idAttr)
  }

  /** The value key `k` of a record holds after normalisation, given its value `v` in the payload. */
  function RelId(schema: Schema, fields: seq<Field>, k: string, v: Value): Value
    decreases |fields|
  {
    if |fields| == 0 then v
    else if fields[0].name == k && fields[0].target in schema then IdsOf(schema[fields[0].target].idAttr, v)
    else RelId(schema, fields[1..], k, v)
  }

  /** The record stored for payload `x`: relation fields hold ids, everything else is as given. */
  function Rewritten(schema: Schema, m: string, x: Value): Value
    requires m in schema && x.Obj?
  {
    Obj(map k | k in x.props :: RelId(schema, schema[m].fields, k, x.props[k]))
  }

  lemma {:induction false} RelIdOther(schema: Schema, fields: seq<Field>, k: string, v: Value)
    requires forall j :: 0 <= j < |fields| ==> fields[j].name != k
    ensures RelId(schema, fields, k, v) == v
    decreases |fields|
  {
    if |fields| > 0 {
      assert fields[0].name != k;
      RelIdOther(schema, fields[1..], k, v);
    }
  }

  lemma {:induction false} RelIdAt(schema: Schema, fields: seq<Field>, j: nat, v: Value)
    requires j < |fields| && DistinctFieldNames(fields) && fields[j].target in schema
    ensures RelId(schema, fields, fields[j].name, v) == IdsOf(schema[fields[j].target].idAttr, v)
    decreases j
  {
    if j > 0 {
      assert fields[0].name != fields[j].name;
      assert fields[1..][j - 1] == fields[j];
      RelIdAt(schema, fields[1..], j - 1, v);
    }
  }

  // ---------------------------------------------------------------------
  // Every nested record is written, with its rewritten record

  /** Every write merges an object. */
  predicate ObjItems(ws: seq<Write>) {
    forall i :: 0 <= i < |ws| ==> ws[i].item.Obj?
  }

  /** The writes `ws` include the write of `x` into `m` and of everything nested in it. */
  ghost predicate Covered(schema: Schema, ws: seq<Write>, m: string, x: Value)
    decreases x, 0
  {
    && m in schema
    && x.Obj?
    && Write(m, IdAttrValue(x, schema[m].idAttr), Rewritten(schema, m, x)) in ws
    && forall j :: 0 <= j < |schema[m].fields| && schema[m].fields[j].name in x.props ==>
         CoveredRelation(schema, ws, schema[m].fields[j].target, x.props[schema[m].fields[j].name])
  }

  ghost predicate CoveredRelation(schema: Schema, ws: seq<Write>, t: string, v: Value)
    decreases v, 1
  {
    && (v.Obj? ==> Covered(schema, ws, t, v))
    && (v.Arr? ==> forall k :: 0 <= k < |v.items| ==> Covered(schema, ws, t, v.items[k]))
  }

  lemma {:induction false} CoveredMono(schema: Schema, ws: seq<Write>, ws': seq<Write>, m: string, x: Value)
    requires Covered(schema, ws, m, x) && forall w :: w in ws ==> w in ws'
    ensures Covered(schema, ws', m, x)
    decreases x, 0
  {
    var fields := schema[m].fields;
    forall j | 0 <= j < |fields| && fields[j].name in x.props
      ensures CoveredRelation(schema, ws', fields[j].target, x.props[fields[j].name])
    {
      CoveredRelationMono(schema, ws, ws', fields[j].target, x.props[fields[j].name]);
    }
  }

  lemma {:induction false} CoveredRelationMono(schema: Schema, ws: seq<Write>, ws': seq<Write>, t: string, v: Value)
    requires CoveredRelation(schema, ws, t, v) && forall w :: w in ws ==> w in ws'
    ensures CoveredRelation(schema, ws', t, v)
    decreases v, 1
  {
    if v.Obj? {
      CoveredMono(schema, ws, ws', t, v);
    } else if v.Arr? {
      forall k | 0 <= k < |v.items|
        ensures Covered(schema, ws', t, v.items[k])
      {
        CoveredMono(schema, ws, ws', t, v.items[k]);
      }
    }
  }

  /** A well-shaped record normalises without error, returns its id and writes itself and everything nested. */
  lemma {:induction false} ItemCovers(schema: Schema, m: string, x: Value)
    requires WellShaped(schema, m, x)
    ensures var n := ItemWrites(schema, m, x, Undefined);
      && n.Ok?
      && n.value.id == IdAttrValue(x, schema[m].idAttr)
      && Covered(schema, n.value.writes, m, x)
      && ObjItems(n.value.writes)
    decreases x, 1, 0
  {
    var opt := schema[m];
    FieldsCover(schema, m, 0, x, x);
    var fw := FieldsWrites(schema, opt.fields, 0, x, x).value;
    var ws := fw.writes + [Write(m, IdAttrValue(x, opt.idAttr), fw.item)];
    assert ItemWrites(schema, m, x, Undefined) == Ok(Normalized(IdAttrValue(x, opt.idAttr), ws));
    ItemRecordRewritten(schema, m, x, Undefined);
    RecordIsRewritten(schema, m, x);
    forall j | 0 <= j < |opt.fields| && opt.fields[j].name in x.props
      ensures CoveredRelation(schema, ws, opt.fields[j].target, x.props[opt.fields[j].name])
    {
      CoveredRelationMono(schema, fw.writes, ws, opt.fields[j].target, x.props[opt.fields[j].name]);
    }
  }

  /** The record `normalizeItem` writes for a well-shaped payload is `Rewritten`. */
  lemma RecordIsRewritten(schema: Schema, m: string, x: Value)
    requires WellShaped(schema, m, x)
    requires FieldsWrites(schema, schema[m].fields, 0, x, x).Ok?
    requires forall j ::
      (0 <= j < |schema[m].fields| && schema[m].fields[j].name in x.props &&
       !IsNormalizedLike(x.props[schema[m].fields[j].name])) ==>
        NormalizeWrites(schema, schema[m].fields[j].target, x.props[schema[m].fields[j].name]).Ok? &&
        NormalizeWrites(schema, schema[m].fields[j].target, x.props[schema[m].fields[j].name]).value.id ==
          IdsOf(schema[schema[m].fields[j].target].idAttr, x.props[schema[m].fields[j].name])
    ensures FieldsWrites(schema, schema[m].fields, 0, x, x).value.item == Rewritten(schema, m, x)
  {
    var fields := schema[m].fields;
    var rec := FieldsWrites(schema, fields, 0, x, x).value.item;
    FieldsRewrite(schema, fields, 0, x, x);
    var expected := Rewritten(schema, m, x);
    assert rec.props.Keys == expected.props.Keys;
    forall k | k in x.props
      ensures rec.props[k] == expected.props[k]
    {
      if j :| 0 <= j < |fields| && fields[j].name == k {
        var v := x.props[k];
        assert ShapedRelation(schema, fields[j].target, v);
        RelIdAt(schema, fields, j, v);
        if IsNormalizedLike(v) {
          ShapedLikeIsEmpty(schema, fields[j].target, v);
          assert IdsOf(schema[fields[j].target].idAttr, v).items == [];
        }
      } else {
        RelIdOther(schema, fields, k, x.props[k]);
      }
    }
  }

  /** The only relation value the normaliser leaves as it is: an empty array. */
  lemma ShapedLikeIsEmpty(schema: Schema, t: string, v: Value)
    requires ShapedRelation(schema, t, v)
    ensures IsNormalizedLike(v) ==> v == Arr([])
  {
    if v.Arr? && |v.items| > 0 {
      assert v.items[0].Obj?;
    }
  }

  /** The relation fields of a well-shaped record normalise, into ids as `IdsOf` gives them. */
  lemma {:induction false} FieldsCover(schema: Schema, m: string, i: nat, x: Value, item: Value)
    requires WellShaped(schema, m, x) && i <= |schema[m].fields|
    ensures var r := FieldsWrites(schema, schema[m].fields, i, x, item);
      && r.Ok?
      && ObjItems(r.value.writes)
      && forall j :: i <= j < |schema[m].fields| && schema[m].fields[j].name in x.props ==>
           CoveredRelation(schema, r.value.writes, schema[m].fields[j].target, x.props[schema[m].fields[j].name])
    ensures forall j ::
      (0 <= j < |schema[m].fields| && schema[m].fields[j].name in x.props &&
       !IsNormalizedLike(x.props[schema[m].fields[j].name])) ==>
        NormalizeWrites(schema, schema[m].fields[j].target, x.props[schema[m].fields[j].name]).Ok? &&
        NormalizeWrites(schema, schema[m].fields[j].target, x.props[schema[m].fields[j].name]).value.id ==
          IdsOf(schema[schema[m].fields[j].target].idAttr, x.props[schema[m].fields[j].name])
    decreases x, 0, |schema[m].fields| - i
  {
    var fields := schema[m].fields;
    forall j | 0 <= j < |fields| && fields[j].name in x.props && !IsNormalizedLike(x.props[fields[j].name])
      ensures NormalizeWrites(schema, fields[j].target, x.props[fields[j].name]).Ok?
      ensures NormalizeWrites(schema, fields[j].target, x.props[fields[j].name]).value.id ==
        IdsOf(schema[fields[j].target].idAttr, x.props[fields[j].name])
    {
      RelationCovers(schema, fields[j].target, x.props[fields[j].name]);
    }
    if i < |fields| {
      var f := fields[i];
      var v := Get(x, f.name).value;
      if v.Undefined? || IsNormalizedLike(v) {
        FieldsCover(schema, m, i + 1, x, item);
        var r := FieldsWrites(schema, fields, i, x, item).value;
        if f.name in x.props {
          assert v == x.props[f.name];
          ShapedLikeIsEmpty(schema, f.target, v);
        }
      } else {
        assert v == x.props[f.name];
        RelationCovers(schema, f.target, v);
        var sub := NormalizeWrites(schema, f.target, v).value;
        FieldsCover(schema, m, i + 1, x, SetProp(item, f.name, sub.id));
        var rest := FieldsWrites(schema, fields, i + 1, x, SetProp(item, f.name, sub.id)).value;
        assert FieldsWrites(schema, fields, i, x, item) == Ok(FieldsOut(rest.item, sub.writes + rest.writes));
        FieldsJoin(schema, m, i, x, sub.writes, rest.writes);
      }
    }
  }

  /** The writes of relation field `i` in front of those of the later fields cover fields `i..`. */
  lemma FieldsJoin(schema: Schema, m: string, i: nat, x: Value, sub: seq<Write>, rest: seq<Write>)
    requires m in schema && x.Obj? && i < |schema[m].fields| && schema[m].fields[i].name in x.props
    requires ObjItems(sub) && ObjItems(rest)
    requires CoveredRelation(schema, sub, schema[m].fields[i].target, x.props[schema[m].fields[i].name])
    requires forall j :: i + 1 <= j < |schema[m].fields| && schema[m].fields[j].name in x.props ==>
      CoveredRelation(schema, rest, schema[m].fields[j].target, x.props[schema[m].fields[j].name])
    ensures ObjItems(sub + rest)
    ensures forall j :: i <= j < |schema[m].fields| && schema[m].fields[j].name in x.props ==>
      CoveredRelation(schema, sub + rest, schema[m].fields[j].target, x.props[schema[m].fields[j].name])
  {
    var fields := schema[m].fields;
    var ws := sub + rest;
    forall w | 0 <= w < |ws| ensures ws[w].item.Obj? {
      if w >= |sub| { assert ws[w] == rest[w - |sub|]; }
    }
    forall j | i <= j < |fields| && fields[j].name in x.props
      ensures CoveredRelation(schema, ws, fields[j].target, x.props[fields[j].name])
    {
      if j == i {
        CoveredRelationMono(schema, sub, ws, fields[j].target, x.props[fields[j].name]);
      } else {
        CoveredRelationMono(schema, rest, ws, fields[j].target, x.props[fields[j].name]);
      }
    }
  }

  /** A relation value that is not normalized-like normalises into the ids `IdsOf` gives, writing everything in it. */
  lemma {:induction false} RelationCovers(schema: Schema, t: string, v: Value)
    requires t in schema && ShapedRelation(schema, t, v) && !IsNormalizedLike(v)
    ensures var n := NormalizeWrites(schema, t, v);
      && n.Ok?
      && n.value.id == IdsOf(schema[t].idAttr, v)
      && CoveredRelation(schema, n.value.writes, t, v)
      && ObjItems(n.value.writes)
    decreases v, 2, 0
  {
    if v.Obj? {
      ItemCovers(schema, t, v);
    } else {
      var items := v.items;
      assert |items| > 0 && WellShaped(schema, t, items[0]);
      ListCovers(schema, t, items, 0);
      assert ListWrites(schema, t, items, 0).value.ids == IdsOf(schema[t].idAttr, v).items;
    }
  }

  /** `out` holds the ids of `items[i..]`, in order, and writes every one of them. */
  ghost predicate ListCovered(schema: Schema, t: string, items: seq<Value>, i: nat, out: ListOut)
    requires t in schema && i <= |items|
  {
    && ObjItems(out.writes)
    && |out.ids| == |items| - i
    && (forall k :: i <= k < |items| ==> out.ids[k - i] == IdAttrValue(items[k], schema[t].idAttr))
    && forall k :: i <= k < |items| ==> Covered(schema, out.writes, t, items[k])
  }

  lemma {:induction false} ListCovers(schema: Schema, t: string, items: seq<Value>, i: nat)
    requires t in schema && i <= |items| && forall k :: 0 <= k < |items| ==> WellShaped(schema, t, items[k])
    ensures var r := ListWrites(schema, t, items, i);
      r.Ok? && ListCovered(schema, t, items, i, r.value)
    decreases Arr(items), 1, |items| - i
  {
    if i < |items| {
      ItemCovers(schema, t, items[i]);
      ListCovers(schema, t, items, i + 1);
      var n := ItemWrites(schema, t, items[i], Undefined).value;
      var rest := ListWrites(schema, t, items, i + 1).value;
      assert ListWrites(schema, t, items, i) == Ok(ListOut([n.id] + rest.ids, n.writes + rest.writes));
      ListJoin(schema, t, items, i, n, rest);
    }
  }

  /** One more normalised item in front of a covered tail keeps the list covered. */
  lemma ListJoin(schema: Schema, t: string, items: seq<Value>, i: nat, n: Normalized, rest: ListOut)
    requires t in schema && i < |items|
    requires n.id == IdAttrValue(items[i], schema[t].idAttr) && ObjItems(n.writes)
    requires Covered(schema, n.writes, t, items[i])
    requires ListCovered(schema, t, items, i + 1, rest)
    ensures ListCovered(schema, t, items, i, ListOut([n.id] + rest.ids, n.writes + rest.writes))
  {
    var ws := n.writes + rest.writes;
    assert ObjItems(ws) by {
      forall w | 0 <= w < |ws| ensures ws[w].item.Obj? {
        if w >= |n.writes| { assert ws[w] == rest.writes[w - |n.writes|]; }
      }
    }
    forall k | i <= k < |items|
      ensures ([n.id] + rest.ids)[k - i] == IdAttrValue(items[k], schema[t].idAttr)
    {
      if k > i { assert ([n.id] + rest.ids)[k - i] == rest.ids[k - (i + 1)]; }
    }
    forall k | i <= k < |items|
      ensures Covered(schema, ws, t, items[k])
    {
      if k == i {
        CoveredMono(schema, n.writes, ws, t, items[k]);
      } else {
        CoveredMono(schema, rest.writes, ws, t, items[k]);
      }
    }
  }

  // ---------------------------------------------------------------------
  // Applying the writes to entries that hold nothing yet

  /** Two writes to the same entry write the same record. */
  predicate SameKeySameItem(ws: seq<Write>) {
    forall i, j ::
      (0 <= i < |ws| && 0 <= j < |ws| && ws[i].table == ws[j].table && PropertyKey(ws[i].id) == PropertyKey(ws[j].id)) ==>
        ws[i].item == ws[j].item
  }

  /**
   * Every entry the writes go to is in a table of the store and holds no
   * object yet (it is absent or a tombstone), or already holds exactly the
   * record written.
   */
  predicate Ready(store: Store, ws: seq<Write>) {
    forall i :: 0 <= i < |ws| ==>
      && ws[i].table in store
      && var e := Lookup(store[ws[i].table], PropertyKey(ws[i].id));
      (!e.Obj? || e == ws[i].item)
  }

  /** The store holds every record of `ws` exactly. */
  predicate StoresAll(store: Store, ws: seq<Write>) {
    forall i :: 0 <= i < |ws| ==> Lookup(TableOf(store, ws[i].table), PropertyKey(ws[i].id)) == ws[i].item
  }

  lemma {:induction false} WrittenKeysAre(ws: seq<Write>, t: string, k: string)
    ensures k in WrittenKeys(ws, t) <==> exists i :: 0 <= i < |ws| && ws[i].table == t && PropertyKey(ws[i].id) == k
    decreases |ws|
  {
    if |ws| > 0 {
      WrittenKeysAre(ws[1..], t, k);
      if k in WrittenKeys(ws[1..], t) {
        var i :| 0 <= i < |ws[1..]| && ws[1..][i].table == t && PropertyKey(ws[1..][i].id) == k;
        assert ws[i + 1] == ws[1..][i];
      }
      if i :| 0 < i < |ws| && ws[i].table == t && PropertyKey(ws[i].id) == k {
        assert ws[1..][i - 1] == ws[i];
      }
    }
  }

  /** Merging a write into a ready entry leaves exactly its record there. */
  lemma MergeIntoReady(store: Store, w: Write)
    requires w.table in store && w.item.Obj?
    requires var e := Lookup(store[w.table], PropertyKey(w.id)); !e.Obj? || e == w.item
    ensures var r := ChangeDataItem(store, w.table, w.id, w.item);
      r.Ok? && r.value[w.table][PropertyKey(w.id)] == w.item
  {
    var r: Store := ChangeDataItem(store, w.table, w.id, w.item).value;
    var e := Lookup(store[w.table], PropertyKey(w.id));
    if e.Obj? {
      assert r[w.table][PropertyKey(w.id)].props == w.item.props;
    }
  }

  /**
   * Writes that agree on every entry they share, applied to entries that
   * are ready for them, leave each entry holding exactly its record.
   */
  lemma {:induction false} StoresExactly(store: Store, ws: seq<Write>)
    requires Ready(store, ws) && SameKeySameItem(ws) && ObjItems(ws)
    ensures ApplyWrites(store, ws).Ok?
    ensures StoresAll(ApplyWrites(store, ws).value, ws)
    decreases |ws|
  {
    if |ws| > 0 {
      var w := ws[0];
      var k0 := PropertyKey(w.id);
      MergeIntoReady(store, w);
      var s1 := ChangeDataItem(store, w.table, w.id, w.item).value;
      var rest := ws[1..];
      assert Ready(s1, rest) by {
        forall i | 0 <= i < |rest|
          ensures rest[i].table in s1
          ensures var e := Lookup(s1[rest[i].table], PropertyKey(rest[i].id)); !e.Obj? || e == rest[i].item
        {
          assert rest[i] == ws[i + 1];
        }
      }
      assert SameKeySameItem(rest) by {
        forall i, j | 0 <= i < |rest| && 0 <= j < |rest| ensures rest[i] == ws[i + 1] && rest[j] == ws[j + 1] { }
      }
      StoresExactly(s1, rest);
      var r := ApplyWrites(s1, rest).value;
      assert ApplyWrites(store, ws) == Ok(r);
      forall i | 0 <= i < |ws|
        ensures Lookup(TableOf(r, ws[i].table), PropertyKey(ws[i].id)) == ws[i].item
      {
        if i > 0 {
          assert ws[i] == rest[i - 1];
        } else if j :| 0 <= j < |rest| && rest[j].table == w.table && PropertyKey(rest[j].id) == k0 {
          assert rest[j] == ws[j + 1];
        } else {
          WrittenKeysAre(rest, w.table, k0);
          KeysAfter(s1, rest);
        }
      }
    }
  }

  // ---------------------------------------------------------------------
  // Reading the records back

  /** The store holds the rewritten record of `x` under its id, and those of everything nested in it. */
  ghost predicate Stored(schema: Schema, store: Store, m: string, x: Value)
    decreases x, 0
  {
    && m in schema
    && x.Obj?
    && Lookup(TableOf(store, m), PropertyKey(IdAttrValue(x, schema[m].idAttr))) == Rewritten(schema, m, x)
    && forall j :: 0 <= j < |schema[m].fields| && schema[m].fields[j].name in x.props ==>
         StoredRelation(schema, store, schema[m].fields[j].target, x.props[schema[m].fields[j].name])
  }

  ghost predicate StoredRelation(schema: Schema, store: Store, t: string, v: Value)
    decreases v, 1
  {
    && (v.Obj? ==> Stored(schema, store, t, v))
    && (v.Arr? ==> forall k :: 0 <= k < |v.items| ==> Stored(schema, store, t, v.items[k]))
  }

  lemma {:induction false} CoveredStored(schema: Schema, store: Store, ws: seq<Write>, m: string, x: Value)
    requires StoresAll(store, ws) && Covered(schema, ws, m, x)
    ensures Stored(schema, store, m, x)
    decreases x, 0
  {
    var w := Write(m, IdAttrValue(x, schema[m].idAttr), Rewritten(schema, m, x));
    var i :| 0 <= i < |ws| && ws[i] == w;
    var fields := schema[m].fields;
    forall j | 0 <= j < |fields| && fields[j].name in x.props
      ensures StoredRelation(schema, store, fields[j].target, x.props[fields[j].name])
    {
      var v := x.props[fields[j].name];
      if v.Obj? {
        CoveredStored(schema, store, ws, fields[j].target, v);
      } else if v.Arr? {
        forall k | 0 <= k < |v.items|
          ensures Stored(schema, store, fields[j].target, v.items[k])
        {
          CoveredStored(schema, store, ws, fields[j].target, v.items[k]);
        }
      }
    }
  }

  /** Hydrating the stored record of a well-shaped payload gives the payload back. */
  lemma {:induction false} ReadBack(schema: Schema, store: Store, rank: map<string, nat>, order: ParseOrder, m: string, x: Value)
    requires Ranked(schema, rank) && WellShaped(schema, m, x) && Stored(schema, store, m, x)
    ensures Hydrate(schema, store, rank, order, m, Rewritten(schema, m, x)) == Ok(x)
    decreases x, 1, 0
  {
    var fields := schema[m].fields;
    var rec := Rewritten(schema, m, x);
    forall k | k in x.props && (forall j :: 0 <= j < |fields| ==> fields[j].name != k)
      ensures rec.props[k] == x.props[k]
    {
      RelIdOther(schema, fields, k, x.props[k]);
    }
    forall j | 0 <= j < |fields| && fields[j].name in x.props
      ensures rec.props[fields[j].name] == IdsOf(schema[fields[j].target].idAttr, x.props[fields[j].name])
    {
      RelIdAt(schema, fields, j, x.props[fields[j].name]);
    }
    HydrateFieldsBack(schema, store, rank, order, m, 0, x, rec);
  }

  /**
   * The relation fields `fields[i..]` of `item` still hold ids as the
   * stored record does, and every other key already holds the payload's
   * value: hydrating them yields the payload.
   */
  lemma {:induction false} HydrateFieldsBack(schema: Schema, store: Store, rank: map<string, nat>, order: ParseOrder, m: string, i: nat, x: Value, item: Value)
    requires Ranked(schema, rank) && WellShaped(schema, m, x) && Stored(schema, store, m, x)
    requires i <= |schema[m].fields|
    requires item.Obj? && item.props.Keys == x.props.Keys
    requires forall k :: k in x.props && (forall j :: i <= j < |schema[m].fields| ==> schema[m].fields[j].name != k) ==>
      item.props[k] == x.props[k]
    requires forall j :: i <= j < |schema[m].fields| && schema[m].fields[j].name in x.props ==>
      item.props[schema[m].fields[j].name] ==
        IdsOf(schema[schema[m].fields[j].target].idAttr, x.props[schema[m].fields[j].name])
    ensures HydrateFields(schema, store, rank, order, m, i, item) == Ok(x)
    decreases x, 0, |schema[m].fields| - i
  {
    var fields := schema[m].fields;
    if i == |fields| {
      assert item.props == x.props;
    } else {
      var f := fields[i];
      if f.name in x.props {
        var v := x.props[f.name];
        var ids := IdsOf(schema[f.target].idAttr, v);
        assert Get(item, f.name) == Ok(ids);
        RelationBack(schema, store, rank, order, f.target, v);
        var item' := SetProp(item, f.name, v);
        forall k | k in x.props && (forall j :: i + 1 <= j < |fields| ==> fields[j].name != k)
          ensures item'.props[k] == x.props[k]
        {
          if k != f.name {
            assert forall j :: i <= j < |fields| ==> fields[j].name != k;
          }
        }
        HydrateFieldsBack(schema, store, rank, order, m, i + 1, x, item');
        assert HydrateFields(schema, store, rank, order, m, i, item) ==
          HydrateFields(schema, store, rank, order, m, i + 1, item');
      } else {
        assert Get(item, f.name) == Ok(Undefined);
        HydrateFieldsBack(schema, store, rank, order, m, i + 1, x, item);
      }
    }
  }

  /** Reading the ids a relation field was normalised into gives back the nested records. */
  lemma {:induction false} RelationBack(schema: Schema, store: Store, rank: map<string, nat>, order: ParseOrder, t: string, v: Value)
    requires Ranked(schema, rank) && t in schema && ShapedRelation(schema, t, v) && StoredRelation(schema, store, t, v)
    ensures ParsedRead(schema, store, rank, order, t, IdsOf(schema[t].idAttr, v)) == Ok(v)
    decreases v, 2, 0
  {
    if v.Obj? {
      ReadBack(schema, store, rank, order, t, v);
    } else {
      var ids := IdsOf(schema[t].idAttr, v).items;
      forall k | 0 <= k < |v.items|
        ensures Lookup(TableOf(store, t), PropertyKey(ids[k])) == Rewritten(schema, t, v.items[k])
        ensures Hydrate(schema, store, rank, order, t, Rewritten(schema, t, v.items[k])) == Ok(v.items[k])
      {
        ReadBack(schema, store, rank, order, t, v.items[k]);
      }
      ParsedListOf(schema, store, rank, order, t, ids, v.items, 0);
      assert v.items[0..] == v.items;
    }
  }

  /**
   * The list read of ids whose records are all stored and hydrate to
   * `items` returns `items`, in either parse order.
   */
  lemma {:induction false} ParsedListOf(schema: Schema, store: Store, rank: map<string, nat>, order: ParseOrder, t: string,
                                        ids: seq<Value>, items: seq<Value>, j: nat)
    requires Ranked(schema, rank) && t in schema && j <= |items| == |ids|
    requires forall k :: 0 <= k < |items| ==>
      && items[k].Obj?
      && Lookup(TableOf(store, t), PropertyKey(ids[k])).Obj?
      && Hydrate(schema, store, rank, order, t, Lookup(TableOf(store, t), PropertyKey(ids[k]))) == Ok(items[k])
    ensures ParsedList(schema, store, rank, order, t, ids, j) == Ok(items[j..])
    decreases |items| - j
  {
    if j < |items| {
      ParsedListOf(schema, store, rank, order, t, ids, items, j + 1);
      var rec := Lookup(TableOf(store, t), PropertyKey(ids[j]));
      assert Hydrate(schema, store, rank, order, t, rec) == Ok(items[j]);
      assert Truthy(rec) && Truthy(items[j]);
      assert items[j..] == [items[j]] + items[j + 1..];
      match order {
        case ParseThenFilter =>
          assert ParsedList(schema, store, rank, order, t, ids, j) == Ok([items[j]] + items[j + 1..]);
        case FilterThenParse =>
          assert ParsedList(schema, store, rank, order, t, ids, j) == Ok([items[j]] + items[j + 1..]);
      }
    }
  }

  // ---------------------------------------------------------------------
  // The round trip

  /**
   * `set` of a well-shaped payload followed by the deep read of the id it
   * returned gives the payload back, in either parse order, provided the
   * entries it writes held nothing yet and the payload never gives two
   * different contents for the same record.
   */
  lemma RoundTrip(schema: Schema, store: Store, rank: map<string, nat>, order: ParseOrder, m: string, x: Value)
    requires Ranked(schema, rank) && WellShaped(schema, m, x)
    ensures Plan(schema, m, x, Undefined).Ok?
    ensures Plan(schema, m, x, Undefined).value.id == IdAttrValue(x, schema[m].idAttr)
    ensures var ws := Plan(schema, m, x, Undefined).value.writes;
      Ready(store, ws) && SameKeySameItem(ws) ==>
        && Normalize(schema, store, m, x, Undefined).Ok?
        && DeepRead(schema, Normalize(schema, store, m, x, Undefined).value.1, rank, order, m,
                    Normalize(schema, store, m, x, Undefined).value.0) == Ok(x)
  {
    ItemCovers(schema, m, x);
    var n := Plan(schema, m, x, Undefined).value;
    if Ready(store, n.writes) && SameKeySameItem(n.writes) {
      StoresExactly(store, n.writes);
      var s := ApplyWrites(store, n.writes).value;
      CoveredStored(schema, s, n.writes, m, x);
      ReadBack(schema, s, rank, order, m, x);
      assert Normalize(schema, store, m, x, Undefined) == Ok((n.id, s));
    }
  }

  /** Hydrating records that each hydrate to the matching element of `xs` gives `xs`. */
  lemma {:induction false} HydrateAllOf(schema: Schema, store: Store, rank: map<string, nat>, order: ParseOrder, m: string,
                                        xs: seq<Value>, recs: seq<Value>, j: nat)
    requires Ranked(schema, rank) && j <= |xs| == |recs|
    requires forall k :: 0 <= k < |xs| ==> Hydrate(schema, store, rank, order, m, recs[k]) == Ok(xs[k])
    ensures HydrateAll(schema, store, rank, order, m, recs, j) == Ok(xs[j..])
    decreases |xs| - j
  {
    if j < |xs| {
      HydrateAllOf(schema, store, rank, order, m, xs, recs, j + 1);
      assert Hydrate(schema, store, rank, order, m, recs[j]) == Ok(xs[j]);
      assert xs[j..] == [xs[j]] + xs[j + 1..];
      assert HydrateAll(schema, store, rank, order, m, recs, j) == Ok([xs[j]] + xs[j + 1..]);
    }
  }

  /** The deep read of the ids of stored well-shaped records gives the records, in order. */
  lemma DeepReadStoredList(schema: Schema, store: Store, rank: map<string, nat>, order: ParseOrder, m: string, xs: seq<Value>, ids: seq<Value>)
    requires Ranked(schema, rank) && |ids| == |xs|
    requires forall k :: 0 <= k < |xs| ==>
      WellShaped(schema, m, xs[k]) && Stored(schema, store, m, xs[k]) && ids[k] == IdAttrValue(xs[k], schema[m].idAttr)
    ensures DeepRead(schema, store, rank, order, m, Arr(ids)) == Ok(Arr(xs))
  {
    var table := TableOf(store, m);
    var recs := seq(|xs|, k requires 0 <= k < |xs| => Rewritten(schema, m, xs[k]));
    assert forall k :: 0 <= k < |xs| ==> PropertyKey(ids[k]) in table && table[PropertyKey(ids[k])] == recs[k];
    ShallowListAllPresent(table, ids);
    assert GetValue(table, Arr(ids)) == Arr(recs);
    forall k | 0 <= k < |xs|
      ensures Hydrate(schema, store, rank, order, m, recs[k]) == Ok(xs[k])
    {
      ReadBack(schema, store, rank, order, m, xs[k]);
    }
    HydrateAllOf(schema, store, rank, order, m, xs, recs, 0);
    assert xs[0..] == xs;
  }

  /**
   * `set` of a list of well-shaped records followed by the deep read of
   * the ids it returned gives the list back, under the same conditions as
   * `RoundTrip`.
   */
  lemma RoundTripList(schema: Schema, store: Store, rank: map<string, nat>, order: ParseOrder, m: string, xs: seq<Value>)
    requires Ranked(schema, rank) && m in schema && forall k :: 0 <= k < |xs| ==> WellShaped(schema, m, xs[k])
    ensures Plan(schema, m, Arr(xs), Undefined).Ok?
    ensures Plan(schema, m, Arr(xs), Undefined).value.id ==
      Arr(seq(|xs|, k requires 0 <= k < |xs| => IdAttrValue(xs[k], schema[m].idAttr)))
    ensures var ws := Plan(schema, m, Arr(xs), Undefined).value.writes;
      Ready(store, ws) && SameKeySameItem(ws) ==>
        && Normalize(schema, store, m, Arr(xs), Undefined).Ok?
        && DeepRead(schema, Normalize(schema, store, m, Arr(xs), Undefined).value.1, rank, order, m,
                    Normalize(schema, store, m, Arr(xs), Undefined).value.0) == Ok(Arr(xs))
  {
    ListCovers(schema, m, xs, 0);
    var out := ListWrites(schema, m, xs, 0).value;
    var n := Plan(schema, m, Arr(xs), Undefined).value;
    assert n == Normalized(Arr(out.ids), out.writes);
    assert out.ids == seq(|xs|, k requires 0 <= k < |xs| => IdAttrValue(xs[k], schema[m].idAttr));
    if Ready(store, n.writes) && SameKeySameItem(n.writes) {
      StoresExactly(store, n.writes);
      var s := ApplyWrites(store, n.writes).value;
      forall k | 0 <= k < |xs|
        ensures Stored(schema, s, m, xs[k])
      {
        CoveredStored(schema, s, n.writes, m, xs[k]);
      }
      DeepReadStoredList(schema, s, rank, order, m, xs, out.ids);
      assert Normalize(schema, store, m, Arr(xs), Undefined) == Ok((n.id, s));
    }
  }
}
