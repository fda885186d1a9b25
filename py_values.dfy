/** The slice of Python's object model that the receipt parser inspects:
    None, numbers, strings, lists, dicts and SDK objects whose attributes
    may or may not be present (what `hasattr` asks). */
module PyValues {

  datatype Option<+T> = None | Some(val: T)

  /** The Python exceptions the modelled code can raise. */
  datatype PyError = AttributeError | TypeError

  datatype Result<+T> = Ok(value: T) | Err(error: PyError)

  /** A Python value. `Obj` is an SDK object (an analysed document, a
      DocumentField, a CurrencyValue, a date); each of its members is
      `Some` exactly when the object has that attribute. `NumVal` stands
      for both `int` and `float`. */
  datatype Val =
    | NoneVal
    | BoolVal(b: bool)
    | NumVal(x: real)
    | StrVal(s: string)
    | ListVal(elems: seq<Val>)
    | DictVal(entries: map<string, Val>)
    | Obj(fields: Option<map<string, Val>>,
          value: Option<Val>,
          amount: Option<Val>,
          confidence: Option<real>)

  /** Python truthiness. Objects define neither `__bool__` nor `__len__`,
      so every object is true. */
  predicate Truthy(v: Val) {
    match v
    case NoneVal => false
    case BoolVal(b) => b
    case NumVal(x) => x != 0.0
    case StrVal(s) => s != ""
    case ListVal(xs) => xs != []
    case DictVal(m) => m != map[]
    case Obj(_, _, _, _) => true
  }

  /** `hasattr(v, 'fields')` */
  predicate HasFields(v: Val) {
    v.Obj? && v.fields.Some?
  }

  /** `hasattr(v, 'value')` */
  predicate HasValue(v: Val) {
    v.Obj? && v.value.Some?
  }

  /** `hasattr(v, 'amount')` */
  predicate HasAmount(v: Val) {
    v.Obj? && v.amount.Some?
  }

  /** `hasattr(v, 'confidence')` */
  predicate HasConfidence(v: Val) {
    v.Obj? && v.confidence.Some?
  }

  /** `m.get(key)`: the entry, or None when the key is missing. */
  function Get(m: map<string, Val>, key: string): Val {
    if key in m then m[key] else NoneVal
  }
}
