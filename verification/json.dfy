/** Untyped JavaScript values as they come out of `JSON.parse` or a YAML loader,
    with the coercions the source applies to them: truthiness and `String(v)`. */
module Js {
  import opened Wrappers
  import opened Text

  /** A parsed JSON/YAML value. Numbers are integers here; fractional numbers
      are not part of this model. */
  datatype Value =
    | JNull
    | JBool(b: bool)
    | JNum(n: int)
    | JStr(s: string)
    | JArr(items: seq<Value>)
    | JObj(fields: map<string, Value>)

  /** JavaScript truthiness of a present value. */
  predicate Truthy(v: Value) {
    match v
    case JNull => false
    case JBool(b) => b
    case JNum(n) => n != 0
    case JStr(s) => s != ""
    case JArr(_) => true
    case JObj(_) => true
  }

  /** Truthiness of a possibly-`undefined` value. */
  predicate TruthyOpt(v: Option<Value>) {
    v.Some? && Truthy(v.value)
  }

  /** `obj[key]` on any value: `undefined` unless `v` is an object holding `key`. */
  function Get(v: Value, key: string): (r: Option<Value>)
    ensures r.Some? <==> v.JObj? && key in v.fields
  {
    if v.JObj? && key in v.fields then Some(v.fields[key]) else None
  }

  /** `obj?.[key]` on a possibly-`undefined` value. */
  function GetOpt(v: Option<Value>, key: string): (r: Option<Value>)
    ensures r.Some? ==> v.Some?
  {
    if v.Some? then Get(v.value, key) else None
  }

  /** `a || b` on possibly-`undefined` values. */
  function Or(a: Option<Value>, b: Option<Value>): (r: Option<Value>)
    ensures TruthyOpt(a) ==> r == a
    ensures !TruthyOpt(a) ==> r == b
  {
    if TruthyOpt(a) then a else b
  }

  /** `String(v)`. Inside an array, `null` elements render as the empty string,
      as `Array.prototype.join` does. */
  function ToJsString(v: Value): (r: string)
    ensures v.JStr? ==> r == v.s
    ensures v.JObj? ==> r == "[object Object]"
    ensures v.JArr? && |v.items| == 0 ==> r == ""
    decreases v, 1
  {
    match v
    case JNull => "null"
    case JBool(b) => if b then "true" else "false"
    case JNum(n) => IntToString(n)
    case JStr(s) => s
    case JArr(items) => JoinItems(v, items)
    case JObj(_) => "[object Object]"
  }

  /** `String(v)` of each element of a parsed array. */
  function Strings(items: seq<Value>): (r: seq<string>)
    ensures |r| == |items|
    ensures forall i :: 0 <= i < |items| ==> r[i] == ToJsString(items[i])
  {
    seq(|items|, i requires 0 <= i < |items| => ToJsString(items[i]))
  }

  /** The comma join of the array elements of `parent`. */
  function JoinItems(parent: Value, items: seq<Value>): (r: string)
    requires forall i :: 0 <= i < |items| ==> items[i] < parent
    decreases parent, 0, |items|
  {
    if items == [] then ""
    else
      var head := if items[0].JNull? then "" else ToJsString(items[0]);
      if |items| == 1 then head else head + "," + JoinItems(parent, items[1..])
  }

  /** `process.env` as a total lookup of the variables that are set. */
  type Env = map<string, string>

  /** `process.env[name]` is truthy: set and non-empty. */
  predicate EnvSet(env: Env, name: string) {
    name in env && env[name] != ""
  }
}
