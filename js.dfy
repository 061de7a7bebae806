/** The fragment of JavaScript values and plain objects that scope composition
    observes: truthiness, string conversion by `+`, property lookup, object
    spread and rest destructuring. */
module Js {

  datatype Option<+T> = None | Some(value: T)

  /** A JavaScript value. Functions are identified by `id` (the readOnly
      predicates are called through an evaluation parameter keyed by it) and
      carry their source text, which is what `+` converts them to. `Other`
      stands for numbers, null, arrays and the like, given by their string
      conversion and their truthiness. */
  datatype Value =
    | Str(s: string)
    | Bool(b: bool)
    | Undefined
    | Func(id: nat, source: string)
    | Obj(fields: map<string, Value>)
    | Other(text: string, truthy: bool)

  /** A plain object (props, a published context): own keys to values. */
  type Props = map<string, Value>

  /** JavaScript truthiness: `''`, `false` and `undefined` are falsy,
      functions and objects are truthy. */
  predicate Truthy(v: Value)
  {
    match v
    case Str(s) => s != ""
    case Bool(b) => b
    case Undefined => false
    case Func(_, _) => true
    case Obj(_) => true
    case Other(_, t) => t
  }

  /** The string a value becomes as an operand of `+` next to a string. */
  function ToStr(v: Value): string
  {
    match v
    case Str(s) => s
    case Bool(b) => if b then "true" else "false"
    case Undefined => "undefined"
    case Func(_, source) => source
    case Obj(_) => "[object Object]"
    case Other(text, _) => text
  }

  /** Property read `o.k`: a missing key reads as `undefined`. */
  function Get(o: Props, k: string): Value
  {
    if k in o then o[k] else Undefined
  }

  /** The context as a value (`context` in `readOnly(context)` and in
      `context={context}`): `undefined` when no Provider encloses. */
  function ContextValue(ctx: Option<Props>): Value
  {
    match ctx
    case None => Undefined
    case Some(o) => Obj(o)
  }

  /** `{...ctx}`: spreading `undefined` contributes no key. */
  function SpreadContext(ctx: Option<Props>): Props
  {
    match ctx
    case None => map[]
    case Some(o) => o
  }

  /** The rest object of `const { k1, k2, ...rest } = o`. */
  function Omit(o: Props, keys: set<string>): (rest: Props)
    ensures rest.Keys == o.Keys - keys
    ensures forall k :: k in rest ==> rest[k] == o[k]
  {
    map k | k in o && k !in keys :: o[k]
  }
}
