/** The JavaScript values the client's helpers inspect, with the few
    language rules they lean on: truthiness, `a || b`, property reads,
    `String(v)` and `Array.prototype.join`. Numbers are integers; NaN,
    fractions, symbols and functions are left out. */
module JsValues {
  import opened Text

  datatype JsVal =
    | Undefined
    | Null
    | Bool(b: bool)
    | Num(n: int)
    | Str(s: string)
    | Arr(items: seq<JsVal>)
    | Obj(fields: map<string, JsVal>)

  /** `null` and `undefined`, the values whose property reads throw. */
  predicate Nullish(v: JsVal) {
    v.Undefined? || v.Null?
  }

  predicate Truthy(v: JsVal) {
    match v
    case Undefined => false
    case Null => false
    case Bool(b) => b
    case Num(n) => n != 0
    case Str(s) => s != ""
    case _ => true
  }

  /** `a || b`: the first operand when it is truthy, else the second. */
  function Or(a: JsVal, b: JsVal): (r: JsVal)
    ensures r == a || r == b
    ensures Truthy(r) <==> Truthy(a) || Truthy(b)
  {
    if Truthy(a) then a else b
  }

  /** `v.name` on a value that is not nullish: an own field of an object,
      `undefined` otherwise (the helpers never read a property that
      strings or arrays define). */
  function Prop(v: JsVal, name: string): JsVal {
    if v.Obj? && name in v.fields then v.fields[name] else Undefined
  }

  /** `v?.name`. */
  function OptProp(v: JsVal, name: string): JsVal {
    if Nullish(v) then Undefined else Prop(v, name)
  }

  /** `String(v)`. */
  function ToStr(v: JsVal): string
    decreases v
  {
    match v
    case Undefined => "undefined"
    case Null => "null"
    case Bool(b) => if b then "true" else "false"
    case Num(n) => IntText(n)
    case Str(s) => s
    case Arr(items) => ArrJoin(items, ",")
    case Obj(_) => "[object Object]"
  }

  /** `items.join(sep)`: `null` and `undefined` elements become empty
      text. */
  function ArrJoin(items: seq<JsVal>, sep: string): string
    decreases items
  {
    if |items| == 0 then ""
    else
      assert items[0] in items;
      var first := if Nullish(items[0]) then "" else ToStr(items[0]);
      if |items| == 1 then first else first + sep + ArrJoin(items[1..], sep)
  }

  /** An array of strings joins like `Text.Join`. */
  lemma {:induction false} ArrJoinStrings(parts: seq<string>, sep: string)
    ensures ArrJoin(seq(|parts|, i requires 0 <= i < |parts| => Str(parts[i])), sep) == Join(parts, sep)
    decreases |parts|
  {
    var items := seq(|parts|, i requires 0 <= i < |parts| => Str(parts[i]));
    if |parts| > 1 {
      assert items[1..] == seq(|parts[1..]|, i requires 0 <= i < |parts[1..]| => Str(parts[1..][i]));
      ArrJoinStrings(parts[1..], sep);
    }
  }
}
