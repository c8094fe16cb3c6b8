/**
  The heterogeneous native object graph that the value tree is validated
  from and cast back to (Swift's `Any`/`AnyObject` graphs of String,
  NSNumber, dictionaries, arrays and NSNull).  The runtime type probes of
  the source (`as? String`, `as? NSNumber`, the `objCType == "c"` test
  that tells a boolean NSNumber from a numeric one) are replaced by
  explicit tags, and anything the conversion does not recognise is the
  alternative `NUnknown`.
*/
module NativeGraph {

  datatype Native =
    | NDictionary(entries: map<string, Native>)
    | NArray(elements: seq<Native>)
    | NString(s: string)
    | NNumber(x: real)      // an NSNumber that is not a boolean
    | NBool(b: bool)        // an NSNumber whose objCType is "c"
    | NNull                 // NSNull (or JSONNull in the oldest copy)
    | NUnknown              // any object the conversion does not recognise

  /** True iff no leaf anywhere in the graph is unrecognised. */
  predicate JsonShaped(n: Native)
    decreases n
  {
    match n
    case NDictionary(entries) => forall k | k in entries :: JsonShaped(entries[k])
    case NArray(elements) => forall i | 0 <= i < |elements| :: JsonShaped(elements[i])
    case NUnknown => false
    case _ => true
  }

  /**
    The type arguments a caller may pass to `cast`: `JSONDictionary`,
    `JSONArray`, `String`, `Double`, `Bool`, the null marker (NSNull in
    the current copy, JSONNull in the oldest) and `Any`/`AnyObject`.
  */
  datatype Shape =
    | DictionaryShape
    | ArrayShape
    | StringShape
    | DoubleShape
    | BoolShape
    | NullShape
    | AnyShape

  /** Swift's dynamic cast test `n is T` for the native object `n`. */
  predicate Conforms(n: Native, shape: Shape)
  {
    match shape
    case AnyShape => true
    case DictionaryShape => n.NDictionary?
    case ArrayShape => n.NArray?
    case StringShape => n.NString?
    case DoubleShape => n.NNumber?
    case BoolShape => n.NBool?
    case NullShape => n.NNull?
  }
}
