/** JavaScript values as they occur in a forge configuration, and the few
    JavaScript operations on them that the configuration code relies on:
    truthiness, property reads and `Object.assign`. */
module Values {

  datatype Option<T> = None | Some(value: T)

  datatype Result<T, E> = Ok(value: T) | Err(error: E)

  /** A node of the configuration graph. Pattern matchers (regular
      expressions), callables and host objects are opaque: only their
      identity matters, so they carry an id. `Selector` is the tagged value
      produced by `fromBuildIdentifier`: a mapping from build identifier to
      value and an optional fallback. Numbers and `null` are not modelled. */
  datatype Value =
    | Undefined
    | Bool(b: bool)
    | Str(s: string)
    | Record(fields: map<string, Value>)
    | Sequence(items: seq<Value>)
    | Pattern(patternId: nat)
    | Callable(callableId: nat)
    | Handle(handleId: nat)
    | Selector(choices: map<string, Value>, fallback: Option<Value>)

  /** JavaScript truthiness: `undefined`, `false` and the empty string are
      falsy, every object is truthy. */
  predicate Truthy(v: Value)
  {
    match v
    case Undefined => false
    case Bool(b) => b
    case Str(s) => s != ""
    case _ => true
  }

  /** Reading property `key` of `v`: an own field of a record, `undefined`
      otherwise (property reads on strings, arrays and functions are not
      modelled). */
  function Field(v: Value, key: string): (r: Value)
    ensures v.Record? && key in v.fields ==> r == v.fields[key]
    ensures !(v.Record? && key in v.fields) ==> r == Undefined
  {
    if v.Record? && key in v.fields then v.fields[key] else Undefined
  }

  /** `Object.assign({}, target, source)`: every field of `source` overrides
      the field of the same name in `target`; no other field is touched. */
  function Assign(target: map<string, Value>, source: map<string, Value>): (r: map<string, Value>)
    ensures r.Keys == target.Keys + source.Keys
    ensures forall k :: k in source ==> r[k] == source[k]
    ensures forall k :: k in target && k !in source ==> r[k] == target[k]
  {
    target + source
  }

  /** Template-literal rendering `${v}` of the values a string field can
      hold; other values render as a placeholder. */
  function Display(v: Value): string
  {
    match v
    case Str(s) => s
    case Bool(b) => if b then "true" else "false"
    case Undefined => "undefined"
    case _ => "[object]"
  }
}
