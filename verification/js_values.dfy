/**
 * The slice of JavaScript value semantics the deals pipeline relies on:
 * JSON-like values, truthiness, the `||` operator, property reads and the
 * index clamping of `Array.prototype.slice` / `String.prototype.slice`.
 * Numbers are integers only.
 */
module JsValues {

  datatype Option<+T> = None | Some(value: T)

  /** A JavaScript value as it travels through the pipeline (request
      parameters, decoded JSON responses, error payloads). */
  datatype JsValue =
    | Undefined
    | Null
    | Bool(b: bool)
    | Num(n: int)
    | Str(s: string)
    | Arr(items: seq<JsValue>)
    | Obj(fields: map<string, JsValue>)

  /** `Boolean(v)`: the falsy values are undefined, null, false, 0 and ''. */
  predicate Truthy(v: JsValue)
  {
    match v
    case Undefined => false
    case Null => false
    case Bool(b) => b
    case Num(n) => n != 0
    case Str(s) => s != ""
    case Arr(_) => true
    case Obj(_) => true
  }

  /** `undefined` or `null`: reading a property of one of these throws. */
  predicate Nullish(v: JsValue)
  {
    v.Undefined? || v.Null?
  }

  /** `a || b` */
  function Or(a: JsValue, b: JsValue): (r: JsValue)
    ensures Truthy(r) <==> Truthy(a) || Truthy(b)
    ensures Truthy(a) ==> r == a
  {
    if Truthy(a) then a else b
  }

  /** `v.key` for a value that is not null or undefined: an own property of
      an object, otherwise `undefined` (no value here has a `deals`, `data`,
      `total`, `totalCount` or `message` property unless it is an object that
      carries one). */
  function Get(v: JsValue, key: string): (r: JsValue)
    requires !Nullish(v)
    ensures !v.Obj? ==> r == Undefined
    ensures v.Obj? && key !in v.fields ==> r == Undefined
  {
    match v
    case Obj(fields) => if key in fields then fields[key] else Undefined
    case _ => Undefined
  }

  /** How `slice` turns an argument into a position in a sequence of length
      `len`: a negative argument counts from the end, and the result is
      clamped to `[0, len]`. */
  function SliceIndex(len: nat, i: int): (r: nat)
    ensures r <= len
    ensures 0 <= i <= len ==> r == i
    ensures i > len ==> r == len
    ensures i < 0 ==> r == if len + i < 0 then 0 else len + i
  {
    if i < 0 then (if len + i < 0 then 0 else len + i)
    else if i > len then len
    else i
  }

  /** `s.slice(start, end)` for arrays and strings alike. */
  function Slice<T>(s: seq<T>, start: int, end: int): (r: seq<T>)
    ensures |r| == if SliceIndex(|s|, start) < SliceIndex(|s|, end)
                   then SliceIndex(|s|, end) - SliceIndex(|s|, start) else 0
    ensures forall k :: 0 <= k < |r| ==> r[k] == s[SliceIndex(|s|, start) + k]
  {
    var b := SliceIndex(|s|, start);
    var e := SliceIndex(|s|, end);
    if b < e then s[b..e] else []
  }
}
