/**
 * JSON-like values as the normaliser sees them, and the few pieces of
 * JavaScript semantics the engine relies on: truthiness, property lookup,
 * object spread and the string form of a property key.
 */
module Values {

  /** A payload value. `Undefined` is an absent property; `Null` is also the tombstone of a removed entry. */
  datatype Value =
    | Undefined
    | Null
    | Bool(b: bool)
    | Num(n: int)
    | Str(s: string)
    | Arr(items: seq<Value>)
    | Obj(props: map<string, Value>)

  /** The exceptions the engine throws. */
  datatype Error =
    | UnknownModel(name: string)   // "model name not existed"
    | DuplicateModel(name: string) // "model name existed"
    | InvalidRemoveTarget          // "remove id is undefined"
    | TypeError                    // a property read on null/undefined, or a missing table

  datatype Result<T> = Ok(value: T) | Err(error: Error) {
    predicate IsFailure() {
      Err?
    }

    function PropagateFailure<U>(): Result<U>
      requires Err?
    {
      Err(error)
    }

    function Extract(): T
      requires Ok?
    {
      value
    }
  }

  datatype Outcome = Pass | Fail(error: Error)

  /** One model's table: id key to record (or the `Null` tombstone). */
  type Table = map<string, Value>

  /** The tables of several models, by model name. */
  type Store = map<string, Table>

  /** JavaScript's `!!v`. */
  predicate Truthy(v: Value) {
    match v
    case Undefined => false
    case Null => false
    case Bool(b) => b
    case Num(n) => n != 0
    case Str(s) => s != ""
    case Arr(_) => true
    case Obj(_) => true
  }

  function Digit(d: nat): (c: char)
    requires d < 10
    ensures '0' <= c <= '9'
  {
    "0123456789"[d]
  }

  function NatToString(n: nat): (s: string)
    ensures |s| > 0
    ensures forall i :: 0 <= i < |s| ==> '0' <= s[i] <= '9'
  {
    if n < 10 then [Digit(n)] else NatToString(n / 10) + [Digit(n % 10)]
  }

  /** Decimal form of an integer number, as `Number.prototype.toString` gives it. */
  function IntToString(n: int): string {
    if n < 0 then "-" + NatToString(-n) else NatToString(n)
  }

  /**
   * `String(v)`: the key under which `table[v]` reads or writes.
   * Inside an array, `null` and `undefined` elements print as the empty string.
   */
  function PropertyKey(v: Value): string
    decreases v, 1, 0
  {
    match v
    case Undefined => "undefined"
    case Null => "null"
    case Bool(b) => if b then "true" else "false"
    case Num(n) => IntToString(n)
    case Str(s) => s
    case Arr(items) => JoinKeys(items, 0)
    case Obj(_) => "[object Object]"
  }

  /** `items.slice(i).join(",")`. */
  function JoinKeys(items: seq<Value>, i: nat): string
    requires i <= |items|
    decreases Arr(items), 0, |items| - i
  {
    if i == |items| then ""
    else
      var head := if items[i].Null? || items[i].Undefined? then "" else PropertyKey(items[i]);
      if i + 1 == |items| then head else head + "," + JoinKeys(items, i + 1)
  }

  /**
   * `v[key]`: a property read. Reading from `null` or `undefined` throws;
   * a primitive or an array has no own string-keyed data properties here.
   */
  function Get(v: Value, key: string): (r: Result<Value>)
    ensures r.Err? <==> v.Null? || v.Undefined?
    ensures r.Ok? && !r.value.Undefined? ==> v.Obj? && key in v.props && r.value == v.props[key]
  {
    match v
    case Undefined => Err(TypeError)
    case Null => Err(TypeError)
    case Obj(m) => Ok(if key in m then m[key] else Undefined)
    case _ => Ok(Undefined)
  }

  /** The own properties `{...v}` contributes to an object spread. */
  function Spread(v: Value): map<string, Value> {
    if v.Obj? then v.props else map[]
  }

  /** `v[field] = x` on a clone being rewritten; only an object takes the property. */
  function SetProp(v: Value, field: string, x: Value): Value {
    if v.Obj? then Obj(v.props[field := x]) else v
  }

  /** `table[key]`, `undefined` when the key is absent. */
  function Lookup(table: Table, key: string): (r: Value)
    ensures key !in table ==> r.Undefined?
  {
    if key in table then table[key] else Undefined
  }

  /** Whether a seq holds no plain object (lodash `_.every(list, x => !_.isPlainObject(x))`). */
  predicate NoPlainObject(items: seq<Value>) {
    forall i :: 0 <= i < |items| ==> !items[i].Obj?
  }

  /**
   * `isNormalizedLike`: anything that is not a plain object, or an array
   * none of whose items is one, is taken for an id or a list of ids.
   */
  predicate IsNormalizedLike(v: Value) {
    match v
    case Arr(items) => NoPlainObject(items)
    case _ => !v.Obj?
  }

  lemma {:induction false} NatToStringInjective(a: nat, b: nat)
    requires NatToString(a) == NatToString(b)
    ensures a == b
  {
    if a >= 10 && b >= 10 {
      var pa, pb := NatToString(a / 10), NatToString(b / 10);
      assert NatToString(a) == pa + [Digit(a % 10)];
      assert NatToString(b) == pb + [Digit(b % 10)];
      assert pa == NatToString(a)[..|pa|];
      assert pb == NatToString(b)[..|pb|];
      NatToStringInjective(a / 10, b / 10);
      assert "0123456789"[a % 10] == "0123456789"[b % 10];
    }
  }

  lemma SignChar(n: int)
    ensures |IntToString(n)| > 0 && (IntToString(n)[0] == '-' <==> n < 0)
  {
  }

  /** Distinct integer ids get distinct table keys. */
  lemma IntKeysInjective(a: int, b: int)
    requires PropertyKey(Num(a)) == PropertyKey(Num(b))
    ensures a == b
  {
    if a < 0 && b < 0 {
      var sa, sb := IntToString(a), IntToString(b);
      assert sa[1..] == NatToString(-a) && sb[1..] == NatToString(-b);
      NatToStringInjective(-a, -b);
    } else if a >= 0 && b >= 0 {
      NatToStringInjective(a, b);
    } else {
      SignChar(a);
      SignChar(b);
    }
  }
}
