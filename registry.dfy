/**
 * The schema registry (`ModelManager`): registered model options, in
 * registration order, and for every model the list of model names it
 * depends on, directly or through other models' relation fields.
 */
module Registry {
  import opened Values

  /** One relation field: `fields[name] = target` in a model's options. */
  datatype Field = Field(name: string, target: string)

  /** `IModelOpt`: name, id attribute and relation fields (in key order; `fields` omitted is the empty seq). */
  datatype ModelOpt = ModelOpt(name: string, idAttr: string, fields: seq<Field>)

  /** Registered options by model name. */
  type Schema = map<string, ModelOpt>

  /** A JavaScript object cannot hold one key twice. */
  predicate DistinctFieldNames(fields: seq<Field>) {
    forall i, j :: 0 <= i < j < |fields| ==> fields[i].name != fields[j].name
  }

  /** `_.values(fields)`: the target names in field order, repeats kept. */
  function FieldTargets(fields: seq<Field>): (r: seq<string>)
    ensures |r| == |fields|
    ensures forall i :: 0 <= i < |fields| ==> r[i] == fields[i].target
  {
    if |fields| == 0 then [] else [fields[0].target] + FieldTargets(fields[1..])
  }

  /** Model `x` is registered and one of its fields names `t`. */
  ghost predicate Refers(schema: Schema, x: string, t: string) {
    x in schema && exists i :: 0 <= i < |schema[x].fields| && schema[x].fields[i].target == t
  }

  /** A chain of at least one reference step. */
  ghost predicate IsPath(schema: Schema, p: seq<string>) {
    |p| >= 2 && forall i :: 0 <= i < |p| - 1 ==> Refers(schema, p[i], p[i + 1])
  }

  /** `n` can be reached from `m` by following `fields` values through registered models. */
  ghost predicate Reachable(schema: Schema, m: string, n: string) {
    exists p :: IsPath(schema, p) && p[0] == m && p[|p| - 1] == n
  }

  /** Every name the schema mentions: registered names and field targets. */
  ghost function Names(schema: Schema): set<string> {
    schema.Keys + set x, i | x in schema && 0 <= i < |schema[x].fields| :: schema[x].fields[i].target
  }

  ghost function Elems(s: seq<string>): set<string> {
    set x | x in s
  }

  /** No name at index `from` or later repeats an earlier entry. */
  predicate NoDupFrom(s: seq<string>, from: nat) {
    forall i, j :: 0 <= i < j < |s| && from <= j ==> s[i] != s[j]
  }

  /**
   * What `getDeps(m)` returns: the direct targets in field order, then
   * names that each occur once, and exactly the names reachable from `m`.
   */
  ghost predicate IsDepList(schema: Schema, m: string, deps: seq<string>) {
    && m in schema
    && var direct := FieldTargets(schema[m].fields);
    && |direct| <= |deps|
    && deps[..|direct|] == direct
    && NoDupFrom(deps, |direct|)
    && forall n :: n in deps <==> Reachable(schema, m, n)
  }

  /** `depMap[x] || []` (src/modelManager.ts:29). */
  function DepsOf(depMap: map<string, seq<string>>, x: string): seq<string> {
    if x in depMap then depMap[x] else []
  }

  /**
   * The state of `depMap` while the closures are filled in: every list holds
   * the model's direct targets and only names reachable from it.
   */
  ghost predicate Approx(schema: Schema, depMap: map<string, seq<string>>) {
    && depMap.Keys == schema.Keys
    && (forall x, t :: x in depMap && Refers(schema, x, t) ==> t in depMap[x])
    && (forall x, t :: x in depMap && t in depMap[x] ==> Reachable(schema, x, t))
  }

  lemma ReachableStep(schema: Schema, m: string, n: string)
    requires Refers(schema, m, n)
    ensures Reachable(schema, m, n)
  {
    assert IsPath(schema, [m, n]);
  }

  lemma {:induction false} ReachableTrans(schema: Schema, a: string, b: string, c: string)
    requires Reachable(schema, a, b) && Reachable(schema, b, c)
    ensures Reachable(schema, a, c)
  {
    var p :| IsPath(schema, p) && p[0] == a && p[|p| - 1] == b;
    var q :| IsPath(schema, q) && q[0] == b && q[|q| - 1] == c;
    var r := p + q[1..];
    assert forall i :: 0 <= i < |p| ==> r[i] == p[i];
    assert forall i :: |p| <= i < |r| ==> r[i] == q[i - |p| + 1];
    assert IsPath(schema, r);
  }

  /** A reachable name is a field target of some registered model. */
  lemma ReachableInNames(schema: Schema, m: string, n: string)
    requires Reachable(schema, m, n)
    ensures n in Names(schema)
  {
    var p :| IsPath(schema, p) && p[0] == m && p[|p| - 1] == n;
    var x := p[|p| - 2];
    assert Refers(schema, x, n);
    var i :| 0 <= i < |schema[x].fields| && schema[x].fields[i].target == n;
  }

  /** A set that holds `m`'s direct targets and is closed under `Refers` holds everything reachable from `m`. */
  lemma {:induction false} ClosedHoldsReachable(schema: Schema, m: string, s: set<string>, p: seq<string>)
    requires forall t :: Refers(schema, m, t) ==> t in s
    requires forall x, t :: x in s && Refers(schema, x, t) ==> t in s
    requires IsPath(schema, p) && p[0] == m
    ensures p[|p| - 1] in s
  {
    if |p| > 2 {
      ClosedHoldsReachable(schema, m, s, p[..|p| - 1]);
      assert Refers(schema, p[|p| - 2], p[|p| - 1]);
    } else {
      assert Refers(schema, p[0], p[1]);
    }
  }

  lemma FieldTargetsRefer(schema: Schema, x: string, t: string)
    requires x in schema
    ensures t in FieldTargets(schema[x].fields) <==> Refers(schema, x, t)
  {
    var ts := FieldTargets(schema[x].fields);
    if t in ts {
      var i :| 0 <= i < |ts| && ts[i] == t;
      assert schema[x].fields[i].target == t;
    }
  }

  /** Every listed name is reachable from `m` and mentioned by the schema. */
  ghost predicate Sound(schema: Schema, m: string, s: seq<string>) {
    forall n :: n in s ==> Reachable(schema, m, n) && n in Names(schema)
  }

  /** The first `done` names of `s` have had their listed dependencies added to `s`. */
  ghost predicate ExpandedUpTo(depMap: map<string, seq<string>>, s: seq<string>, done: nat) {
    done <= |s| && forall i, t :: 0 <= i < done && t in DepsOf(depMap, s[i]) ==> t in s
  }

  /** Position of the first occurrence of `t` in `s`: `s.indexOf(t)`. */
  function IndexOf(s: seq<string>, t: string): (r: nat)
    requires t in s
    ensures r < |s| && s[r] == t && forall i :: 0 <= i < r ==> s[i] != t
  {
    if s[0] == t then 0 else 1 + IndexOf(s[1..], t)
  }

  /**
   * The `_.forEach(currDepList, ...)` body (src/modelManager.ts:30-37):
   * every dependency not yet in `newDepList` is pushed onto both lists.
   */
  method PushNew(newDepList: seq<string>, loopList: seq<string>, currDepList: seq<string>)
    returns (newDepList': seq<string>, loopList': seq<string>)
    ensures |newDepList| <= |newDepList'| && newDepList'[..|newDepList|] == newDepList
    ensures loopList' == loopList + newDepList'[|newDepList|..]
    ensures forall t :: t in currDepList ==> t in newDepList'
    ensures forall k :: |newDepList| <= k < |newDepList'| ==> newDepList'[k] in currDepList
    ensures forall i, j :: 0 <= i < j < |newDepList'| && |newDepList| <= j ==> newDepList'[i] != newDepList'[j]
    ensures forall i, j :: |newDepList| <= i < j < |newDepList'| ==>
      IndexOf(currDepList, newDepList'[i]) < IndexOf(currDepList, newDepList'[j])
  {
    newDepList', loopList' := newDepList, loopList;
    for j := 0 to |currDepList|
      invariant |newDepList| <= |newDepList'| && newDepList'[..|newDepList|] == newDepList
      invariant loopList' == loopList + newDepList'[|newDepList|..]
      invariant forall t :: 0 <= t < j ==> currDepList[t] in newDepList'
      invariant forall k :: |newDepList| <= k < |newDepList'| ==> newDepList'[k] in currDepList
      invariant forall i, k :: 0 <= i < k < |newDepList'| && |newDepList| <= k ==> newDepList'[i] != newDepList'[k]
      invariant forall k :: |newDepList| <= k < |newDepList'| ==> IndexOf(currDepList, newDepList'[k]) < j
      invariant forall i, k :: |newDepList| <= i < k < |newDepList'| ==>
        IndexOf(currDepList, newDepList'[i]) < IndexOf(currDepList, newDepList'[k])
    {
      var dep := currDepList[j];
      if dep !in newDepList' {
        assert IndexOf(currDepList, dep) == j;
        newDepList' := newDepList' + [dep];
        loopList' := loopList' + [dep];
      }
    }
  }

  /** One round of the inner `while` keeps the loop's invariant and makes progress. */
  lemma PushKeepsInvariant(schema: Schema, depMap: map<string, seq<string>>, m: string,
                           depList: seq<string>, before: seq<string>, after: seq<string>, done: nat)
    requires Approx(schema, depMap)
    requires done < |before| && |depList| <= |before| && before[..|depList|] == depList
    requires NoDupFrom(before, |depList|) && Sound(schema, m, before) && ExpandedUpTo(depMap, before, done)
    requires |before| <= |after| && after[..|before|] == before
    requires forall t :: t in DepsOf(depMap, before[done]) ==> t in after
    requires forall k :: |before| <= k < |after| ==> after[k] in DepsOf(depMap, before[done])
    requires forall i, j :: 0 <= i < j < |after| && |before| <= j ==> after[i] != after[j]
    ensures |depList| <= |after| && after[..|depList|] == depList
    ensures NoDupFrom(after, |depList|) && Sound(schema, m, after) && ExpandedUpTo(depMap, after, done + 1)
    ensures after == before || Names(schema) - Elems(after) < Names(schema) - Elems(before)
  {
    var curr := before[done];
    assert Reachable(schema, m, curr);
    forall k | |before| <= k < |after| ensures Reachable(schema, m, after[k]) && after[k] in Names(schema) {
      ReachableTrans(schema, m, curr, after[k]);
      ReachableInNames(schema, m, after[k]);
    }
    forall n | n in after ensures Reachable(schema, m, n) && n in Names(schema) {
      var k :| 0 <= k < |after| && after[k] == n;
      if k < |before| { assert n == before[k]; }
    }
    forall i, j | 0 <= i < j < |after| && |depList| <= j ensures after[i] != after[j] {
      if j < |before| { assert after[i] == before[i] && after[j] == before[j]; }
    }
    forall i, t | 0 <= i < done + 1 && t in DepsOf(depMap, after[i]) ensures t in after {
      assert after[i] == before[i];
      if i < done { assert t in before; }
    }
    if |after| > |before| {
      assert after[|before|] in Elems(after) - Elems(before);
    } else {
      assert after == before;
    }
  }

  /**
   * The inner `while` of `getModelDepMap` for one model `m`
   * (src/modelManager.ts:24-38): starting from `m`'s direct targets, take
   * names off the front of `loopList` and push each of their listed
   * dependencies that is new to the result.
   */
  method DeepDeps(schema: Schema, depMap: map<string, seq<string>>, m: string) returns (newDepList: seq<string>)
    requires m in depMap && Approx(schema, depMap)
    requires depMap[m] == FieldTargets(schema[m].fields)
    ensures IsDepList(schema, m, newDepList)
  {
    var depList := depMap[m];
    newDepList := depList;
    var loopList := depList;
    ghost var done := 0;
    DeepStart(schema, depMap, m);
    while |loopList| > 0
      invariant DeepLoop(schema, depMap, m, depList, newDepList, loopList, done)
      decreases Names(schema) - Elems(newDepList), |loopList|
    {
      var curr := loopList[0];
      ghost var before, beforeLoop := newDepList, loopList;
      newDepList, loopList := PushNew(newDepList, loopList[1..], DepsOf(depMap, curr));
      DeepStep(schema, depMap, m, depList, before, beforeLoop, newDepList, loopList, done);
      done := done + 1;
    }
    Complete(schema, depMap, m, newDepList);
  }

  /** The invariant of the inner `while`: `loopList` is what is left of `newDepList` to expand. */
  ghost predicate DeepLoop(schema: Schema, depMap: map<string, seq<string>>, m: string,
                           depList: seq<string>, s: seq<string>, loopList: seq<string>, done: nat) {
    && done <= |s| && loopList == s[done..]
    && |depList| <= |s| && s[..|depList|] == depList
    && NoDupFrom(s, |depList|)
    && Sound(schema, m, s)
    && ExpandedUpTo(depMap, s, done)
  }

  lemma DeepStart(schema: Schema, depMap: map<string, seq<string>>, m: string)
    requires m in depMap && Approx(schema, depMap)
    requires depMap[m] == FieldTargets(schema[m].fields)
    ensures DeepLoop(schema, depMap, m, depMap[m], depMap[m], depMap[m], 0)
  {
    forall t | t in depMap[m] ensures Reachable(schema, m, t) && t in Names(schema) {
      FieldTargetsRefer(schema, m, t);
      ReachableStep(schema, m, t);
      ReachableInNames(schema, m, t);
    }
    assert depMap[m][0..] == depMap[m];
  }

  /** One round of the inner `while` keeps `DeepLoop` and decreases the loop's measure. */
  lemma DeepStep(schema: Schema, depMap: map<string, seq<string>>, m: string, depList: seq<string>,
                 before: seq<string>, beforeLoop: seq<string>, after: seq<string>, afterLoop: seq<string>, done: nat)
    requires Approx(schema, depMap)
    requires DeepLoop(schema, depMap, m, depList, before, beforeLoop, done) && |beforeLoop| > 0
    requires |before| <= |after| && after[..|before|] == before
    requires afterLoop == beforeLoop[1..] + after[|before|..]
    requires forall t :: t in DepsOf(depMap, beforeLoop[0]) ==> t in after
    requires forall k :: |before| <= k < |after| ==> after[k] in DepsOf(depMap, beforeLoop[0])
    requires forall i, j :: 0 <= i < j < |after| && |before| <= j ==> after[i] != after[j]
    ensures DeepLoop(schema, depMap, m, depList, after, afterLoop, done + 1)
    ensures Names(schema) - Elems(after) < Names(schema) - Elems(before) ||
      (after == before && |afterLoop| < |beforeLoop|)
  {
    assert beforeLoop[0] == before[done];
    PushKeepsInvariant(schema, depMap, m, depList, before, after, done);
    assert afterLoop == after[done + 1..];
  }

  /** A fully expanded list that starts with `m`'s direct targets holds everything reachable from `m`. */
  lemma Complete(schema: Schema, depMap: map<string, seq<string>>, m: string, s: seq<string>)
    requires Approx(schema, depMap) && m in schema
    requires |FieldTargets(schema[m].fields)| <= |s| && s[..|FieldTargets(schema[m].fields)|] == FieldTargets(schema[m].fields)
    requires ExpandedUpTo(depMap, s, |s|)
    ensures forall n :: Reachable(schema, m, n) ==> n in s
  {
    var direct := FieldTargets(schema[m].fields);
    forall t | Refers(schema, m, t) ensures t in Elems(s) {
      FieldTargetsRefer(schema, m, t);
      assert t in s[..|direct|];
    }
    forall x, t | x in Elems(s) && Refers(schema, x, t) ensures t in Elems(s) {
      var i :| 0 <= i < |s| && s[i] == x;
      assert t in DepsOf(depMap, s[i]);
    }
    forall n | Reachable(schema, m, n) ensures n in s {
      var p :| IsPath(schema, p) && p[0] == m && p[|p| - 1] == n;
      ClosedHoldsReachable(schema, m, Elems(s), p);
    }
  }

  /** `_.keys(this.data)` matches the registered names, each once. */
  ghost predicate NamesMatch(names: seq<string>, schema: Schema) {
    && (forall i, j :: 0 <= i < j < |names| ==> names[i] != names[j])
    && (forall n :: n in schema <==> n in names)
  }

  /**
   * `getModelDepMap` (src/modelManager.ts:13-43): seed every model's entry
   * with its direct targets, then overwrite each entry, in registration
   * order, with its closure.
   */
  method ComputeDepMap(names: seq<string>, schema: Schema) returns (depMap: map<string, seq<string>>)
    requires NamesMatch(names, schema)
    ensures depMap.Keys == schema.Keys
    ensures forall m :: m in depMap ==> IsDepList(schema, m, depMap[m])
  {
    depMap := SeedDepMap(names, schema);
    SeedIsApprox(schema, depMap);
    for i := 0 to |names|
      invariant Closing(schema, names, depMap, i)
    {
      var m := names[i];
      var newDepList := DeepDeps(schema, depMap, m);
      ClosingStep(schema, names, depMap, i, newDepList);
      depMap := depMap[m := newDepList];
    }
    ClosingEnd(schema, names, depMap);
  }

  /** The outer `_.forEach` of `getModelDepMap` after `i` models: those are closed, the rest still seeded. */
  ghost predicate Closing(schema: Schema, names: seq<string>, depMap: map<string, seq<string>>, i: nat) {
    && i <= |names|
    && Approx(schema, depMap)
    && (forall j :: 0 <= j < |names| ==> names[j] in depMap && names[j] in schema)
    && (forall j :: 0 <= j < i ==> IsDepList(schema, names[j], depMap[names[j]]))
    && forall j :: i <= j < |names| ==> depMap[names[j]] == FieldTargets(schema[names[j]].fields)
  }

  lemma ClosingStep(schema: Schema, names: seq<string>, depMap: map<string, seq<string>>, i: nat, deps: seq<string>)
    requires NamesMatch(names, schema) && i < |names| && Closing(schema, names, depMap, i)
    requires IsDepList(schema, names[i], deps)
    ensures Closing(schema, names, depMap[names[i] := deps], i + 1)
  {
    ClosingKeepsApprox(schema, depMap, names[i], deps);
  }

  lemma ClosingEnd(schema: Schema, names: seq<string>, depMap: map<string, seq<string>>)
    requires NamesMatch(names, schema) && Closing(schema, names, depMap, |names|)
    ensures depMap.Keys == schema.Keys
    ensures forall m :: m in depMap ==> IsDepList(schema, m, depMap[m])
  {
    forall m | m in depMap ensures IsDepList(schema, m, depMap[m]) {
      var j :| 0 <= j < |names| && names[j] == m;
    }
  }

  /** The first `_.forEach` of `getModelDepMap` (src/modelManager.ts:17-21): every model's direct targets. */
  method SeedDepMap(names: seq<string>, schema: Schema) returns (depMap: map<string, seq<string>>)
    requires NamesMatch(names, schema)
    ensures depMap.Keys == schema.Keys
    ensures forall x :: x in depMap ==> depMap[x] == FieldTargets(schema[x].fields)
  {
    depMap := map[];
    for i := 0 to |names|
      invariant forall n :: n in depMap <==> n in names[..i]
      invariant forall x :: x in depMap ==> x in schema && depMap[x] == FieldTargets(schema[x].fields)
    {
      depMap := depMap[names[i] := FieldTargets(schema[names[i]].fields)];
    }
    assert names[..|names|] == names;
  }

  lemma SeedIsApprox(schema: Schema, depMap: map<string, seq<string>>)
    requires depMap.Keys == schema.Keys
    requires forall x :: x in depMap ==> depMap[x] == FieldTargets(schema[x].fields)
    ensures Approx(schema, depMap)
  {
    forall x, t | x in depMap && Refers(schema, x, t) ensures t in depMap[x] {
      FieldTargetsRefer(schema, x, t);
    }
    forall x, t | x in depMap && t in depMap[x] ensures Reachable(schema, x, t) {
      FieldTargetsRefer(schema, x, t);
      ReachableStep(schema, x, t);
    }
  }

  /** Overwriting one entry with its closure keeps `depMap` an approximation. */
  lemma ClosingKeepsApprox(schema: Schema, depMap: map<string, seq<string>>, m: string, deps: seq<string>)
    requires Approx(schema, depMap) && m in depMap && IsDepList(schema, m, deps)
    ensures Approx(schema, depMap[m := deps])
  {
    forall t | Refers(schema, m, t) ensures t in deps {
      ReachableStep(schema, m, t);
    }
  }

  /** `ModelManager`: the registered options (`data`), their key order, and the dependency map. */
  class ModelManager {
    var names: seq<string>
    var data: Schema
    var modelDepMap: map<string, seq<string>>

    ghost predicate Valid()
      reads this
    {
      && NamesMatch(names, data)
      && modelDepMap.Keys == data.Keys
      && forall m :: m in modelDepMap ==> IsDepList(data, m, modelDepMap[m])
    }

    constructor ()
      ensures Valid() && names == [] && data == map[]
    {
      names := [];
      data := map[];
      modelDepMap := map[];
    }

    /** `hasModel` (src/modelManager.ts:45-47). */
    function HasModel(name: string): (r: bool)
      reads this
      requires Valid()
      ensures r <==> name in names
    {
      name in data
    }

    /** `getModel` (src/modelManager.ts:49-54): throws on an unregistered name. */
    function GetModel(name: string): (r: Result<ModelOpt>)
      reads this
      requires Valid()
      ensures r.Err? <==> name !in names
      ensures r.Err? ==> r.error == UnknownModel(name)
      ensures r.Ok? ==> r.value == data[name]
    {
      if HasModel(name) then Ok(data[name]) else Err(UnknownModel(name))
    }

    /**
     * `getDeps` (src/modelManager.ts:77-82): throws on an unregistered name;
     * otherwise the closure computed at the last registration.
     */
    function GetDeps(name: string): (r: Result<seq<string>>)
      reads this
      requires Valid()
      ensures r.Err? <==> name !in names
      ensures r.Err? ==> r.error == UnknownModel(name)
      ensures r.Ok? ==> forall n :: n in r.value <==> Reachable(data, name, n)
      ensures r.Ok? ==> var direct := FieldTargets(data[name].fields);
        |direct| <= |r.value| && r.value[..|direct|] == direct && NoDupFrom(r.value, |direct|)
    {
      if HasModel(name) then Ok(modelDepMap[name]) else Err(UnknownModel(name))
    }

    /**
     * `setModel` (src/modelManager.ts:56-64): a duplicate name throws and
     * changes nothing; otherwise the model is added and every model's
     * closure is recomputed.
     */
    method SetModel(name: string, opt: ModelOpt) returns (r: Outcome)
      requires Valid()
      modifies this
      ensures Valid()
      ensures r.Fail? <==> name in old(data)
      ensures r.Fail? ==> r.error == DuplicateModel(name)
      ensures r.Fail? ==> data == old(data) && names == old(names) && modelDepMap == old(modelDepMap)
      ensures r.Pass? ==> data == old(data)[name := opt] && names == old(names) + [name]
    {
      if HasModel(name) {
        return Fail(DuplicateModel(name));
      }
      data := data[name := opt];
      names := names + [name];
      modelDepMap := ComputeDepMap(names, data);
      r := Pass;
    }

    /**
     * `traverse` (src/modelManager.ts:66-70): the registered options in key
     * order; the callback is applied by the caller to each in turn.
     */
    method Traverse() returns (visited: seq<ModelOpt>)
      requires Valid()
      ensures |visited| == |names|
      ensures forall i :: 0 <= i < |names| ==> visited[i] == data[names[i]]
    {
      visited := [];
      for i := 0 to |names|
        invariant |visited| == i
        invariant forall k :: 0 <= k < i ==> visited[k] == data[names[k]]
      {
        visited := visited + [data[names[i]]];
      }
    }
  }

  /** Every registered model is visited by `Traverse`, and exactly once: a corollary of `NamesMatch`. */
  lemma TraverseOnce(names: seq<string>, schema: Schema, n: string)
    requires NamesMatch(names, schema) && n in schema
    ensures exists i :: 0 <= i < |names| && names[i] == n
    ensures forall i, j :: 0 <= i < |names| && 0 <= j < |names| && names[i] == n && names[j] == n ==> i == j
  {
  }

  /**
   * A model is among its own dependencies exactly when it lies on a
   * reference cycle: a corollary of the reachability clause of `IsDepList`.
   */
  lemma OwnDepIffCycle(schema: Schema, m: string, deps: seq<string>)
    requires IsDepList(schema, m, deps)
    ensures m in deps <==> exists p :: IsPath(schema, p) && p[0] == m && p[|p| - 1] == m
  {
  }

  /**
   * Unregistered names are never expanded: every step of a path leaves a
   * registered model. A corollary of `Refers`.
   */
  lemma {:induction false} PathLeavesRegistered(schema: Schema, p: seq<string>, i: nat)
    requires IsPath(schema, p) && i < |p| - 1
    ensures p[i] in schema
  {
    assert Refers(schema, p[i], p[i + 1]);
  }
}
