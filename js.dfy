/** JavaScript values as the extension inspects them at run time: the
    messages it receives and the generator library it walks by path. */
module Js {

  /** A JavaScript value. Numbers are integers here (see README). `Array`
      is an array object: its elements are not reached through `Get`.
      `Function(id)` names a callable whose behaviour is given separately. */
  datatype JsValue =
    | Undefined
    | Null
    | Bool(b: bool)
    | Number(n: int)
    | Str(s: string)
    | Object(props: map<string, JsValue>)
    | Array(items: seq<JsValue>)
    | Function(id: nat)

  /** `!v`: the falsy values. */
  predicate Falsy(v: JsValue) {
    v.Undefined? || v.Null? || v == Bool(false) || v == Number(0) || v == Str("")
  }

  /** `typeof v === "object"`, which also holds of `null`. */
  predicate TypeofObject(v: JsValue) {
    v.Null? || v.Object? || v.Array?
  }

  /** `v[key]` on a plain object; `undefined` when the key is absent. */
  function Get(v: JsValue, key: string): JsValue {
    if v.Object? && key in v.props then v.props[key] else Undefined
  }

  /** `String(new Error(message))`: the name, then the message when there is one. */
  function ErrorString(message: string): (r: string)
    ensures message != "" ==> |r| == 7 + |message| && r[..7] == "Error: " && r[7..] == message
    ensures message == "" ==> r == "Error"
  {
    if message == "" then "Error" else "Error: " + message
  }

  /** How a promise settles: with a value, or rejected with an error that
      is already turned into its text by `String(error)`. */
  datatype Settled<T> = Resolved(value: T) | Rejected(error: string)
}
