/**
 * The JavaScript values the core passes around: configuration options,
 * content entries and what content functions return.
 */
module JsValues {
  import opened Dom

  datatype Value =
    | Undefined
    | Null
    | Bool(b: bool)
    | Num(n: int)                        // numbers; only integers are modelled
    | Str(s: string)
    | Fn(id: nat)                        // a function, known by its identity
    | Elem(node: Node)                   // a DOM element
    | Obj(props: seq<(string, Value)>)   // a plain object: its own enumerable properties, in order
    | HostObj(name: string)              // an object built outside the model, such as the default allowlist

  /**
   * The type name `typeCheckConfig` compares against the allowed alternatives:
   * `'element'` for an element, otherwise the lower-cased `toType` tag.
   */
  datatype JsType = TUndefined | TNull | TBoolean | TNumber | TString | TFunction | TElement | TObject

  function TypeOf(v: Value): (t: JsType)
    ensures t == TString <==> v.Str?
    ensures t == TBoolean <==> v.Bool?
    ensures t == TFunction <==> v.Fn?
    ensures t == TNull <==> v == Null
    ensures t == TObject <==> v.Obj? || v.HostObj?
  {
    match v
    case Undefined => TUndefined
    case Null => TNull
    case Bool(_) => TBoolean
    case Num(_) => TNumber
    case Str(_) => TString
    case Fn(_) => TFunction
    case Elem(_) => TElement
    case Obj(_) => TObject
    case HostObj(_) => TObject
  }

  /** JavaScript truthiness: `false`, `0`, `''`, `null` and `undefined` are falsy. */
  predicate Truthy(v: Value) {
    match v
    case Undefined => false
    case Null => false
    case Bool(b) => b
    case Num(n) => n != 0
    case Str(s) => s != ""
    case _ => true
  }

  /** `obj[k]` on a property map: `undefined` when the property is absent. */
  function Lookup(m: map<string, Value>, k: string): Value {
    if k in m then m[k] else Undefined
  }

  /** The properties of an object literal; a later property overrides an earlier one. */
  function PropsMap(props: seq<(string, Value)>): map<string, Value>
    decreases |props|
  {
    if props == [] then map[]
    else PropsMap(props[..|props| - 1])[props[|props| - 1].0 := props[|props| - 1].1]
  }

  /**
   * `{...v}`: a plain object contributes its properties; `null`, `undefined`
   * and the other values the model spreads contribute none. A host object is
   * opaque here: JavaScript would spread its own enumerable properties, but
   * the model gives it none, so it resolves as a non-object does.
   */
  function Spread(v: Value): map<string, Value> {
    if v.Obj? then PropsMap(v.props) else map[]
  }

  /** `Object.entries(v)` for a value that type-checked as an object. */
  function EntriesOf(v: Value): seq<(string, Value)> {
    if v.Obj? then v.props else []
  }
}
