/**
  The accessor `FlexiJSON`: a tree or an error message (`Either`), the
  total navigation protocol by key and by index, the mutating setters, the
  accessor `==` and the typed projections.  The navigation functions work
  on `Either` values; the struct whose `mutating` setters reassign its
  `either` field is the class `FlexiJSON` at the end.
*/
module Accessors {
  import opened Wrappers
  import opened NativeGraph
  import opened Fragments
  import opened Decimal

  /** `FlexiJSON.Either`: the tree an accessor holds, or its error message. */
  datatype Either = Value(fragment: Fragment) | Error(message: string)
  {
    /** `either.value` (`either.fragment` in the current copy). */
    function ValueOrNil(): (r: Option<Fragment>)
      ensures r.Some? <==> Value?
      ensures Value? ==> r == Some(fragment)
    {
      if Value? then Some(fragment) else None
    }

    /** `either.error`. */
    function ErrorOrNil(): (r: Option<string>)
      ensures r.Some? <==> Error?
      ensures Error? ==> r == Some(message)
    {
      if Error? then Some(message) else None
    }
  }

  /** Exactly one of the two projections of an `Either` is non-nil. */
  lemma EitherHasOneProjection(e: Either)
    ensures e.ValueOrNil().Some? != e.ErrorOrNil().Some?
    ensures e.Value? ==> e.ValueOrNil() == Some(e.fragment)
    ensures e.Error? ==> e.ErrorOrNil() == Some(e.message)
  {
  }

  // ---------------------------------------------------------------------
  // Messages
  // ---------------------------------------------------------------------

  const NonJsonObject: string := "Initialised FlexiJSON with a non json object."
  const NonexistentArray: string := "Attempted to access a nonexistant array."

  function KeyNotFound(key: string): string
  {
    "Key '" + key + "' was not found."
  }

  function IndexOutOfBounds(index: int): string
  {
    "Index '" + IntToString(index) + "' is out of bounds."
  }

  /** The key-not-found message names the key: different keys give different messages. */
  lemma KeyNotFoundNamesKey(key1: string, key2: string)
    requires KeyNotFound(key1) == KeyNotFound(key2)
    ensures key1 == key2
  {
    var m := KeyNotFound(key1);
    assert key1 == m[5..|m| - 16];
    assert key2 == KeyNotFound(key2)[5..|m| - 16];
  }

  /** The out-of-bounds message names the index: different indices give different messages. */
  lemma IndexOutOfBoundsNamesIndex(index1: int, index2: int)
    requires IndexOutOfBounds(index1) == IndexOutOfBounds(index2)
    ensures index1 == index2
  {
    var m := IndexOutOfBounds(index1);
    assert IntToString(index1) == m[7..|m| - 19];
    assert IntToString(index2) == IndexOutOfBounds(index2)[7..|m| - 19];
    IntToStringInjective(index1, index2);
  }

  // ---------------------------------------------------------------------
  // Construction
  // ---------------------------------------------------------------------

  /** `init(fragment:)`: a failed conversion (nil) becomes the non-json-object error. */
  function Init(fragment: Option<Fragment>): (r: Either)
    ensures fragment.None? <==> r == Error(NonJsonObject)
    ensures fragment.Some? ==> r == Value(fragment.value)
  {
    match fragment
    case None => Error(NonJsonObject)
    case Some(f) => Value(f)
  }

  /** An accessor built from a native graph holds a tree exactly when the graph is JSON-shaped. */
  lemma InitFromGraph(n: Native)
    ensures Init(Fragments.From(n)).Value? <==> JsonShaped(n)
    ensures Init(Fragments.From(n)).Value? ==> Embed(Init(Fragments.From(n)).fragment) == n
    ensures !JsonShaped(n) ==> Init(Fragments.From(n)) == Error(NonJsonObject)
  {
  }

  // ---------------------------------------------------------------------
  // Navigation
  // ---------------------------------------------------------------------

  /** True iff the accessor holds a dictionary. */
  predicate HoldsDictionary(e: Either)
  {
    e.Value? && e.fragment.Dictionary?
  }

  /** True iff the accessor holds an array. */
  predicate HoldsArray(e: Either)
  {
    e.Value? && e.fragment.Array?
  }

  /**
    `get(forKey:)`: the value under `key` when the accessor holds a
    dictionary that has it; in every other case, a failed receiver
    included, the key-not-found error.
  */
  function GetKey(e: Either, key: string): (r: Either)
    ensures r.Value? <==> HoldsDictionary(e) && key in e.fragment.d
    ensures r.Value? ==> r.fragment == e.fragment.d[key]
    ensures r.Error? ==> r.message == KeyNotFound(key)
  {
    match e.ValueOrNil()
    case Some(Dictionary(d)) =>
      if key in d then Init(Some(d[key])) else Error(KeyNotFound(key))
    case _ => Error(KeyNotFound(key))
  }

  /** The result of code that may abort: Swift's out-of-range array subscript traps. */
  datatype Outcome = Returned(accessor: Either) | Trapped

  /**
    `get(atIndex:)` as written: the guard `index < a.count` lets a negative
    index through to `a[index]`, which traps.
  */
  function GetIndexAsWritten(e: Either, index: int): (r: Outcome)
    ensures r.Trapped? <==> HoldsArray(e) && index < 0
    ensures r.Returned? && r.accessor.Value? <==> HoldsArray(e) && 0 <= index < |e.fragment.a|
  {
    match e.ValueOrNil()
    case Some(Array(a)) =>
      if !(index < |a|) then Returned(Error(IndexOutOfBounds(index)))
      else if 0 <= index then Returned(Init(Some(a[index])))
      else Trapped
    case _ => Returned(Error(NonexistentArray))
  }

  /** The input that shows it: index -1 of a one-element array traps. */
  lemma NegativeIndexTraps()
    ensures GetIndexAsWritten(Value(Array([String("some")])), -1) == Trapped
  {
  }

  /**
    `get(atIndex:)` with the bounds check the out-of-bounds message
    promises: the element for an index in `[0, count)`, the out-of-bounds
    error for any other index, and the nonexistent-array error when the
    accessor holds no array (or is failed).
  */
  function GetIndex(e: Either, index: int): (r: Either)
    ensures r.Value? <==> HoldsArray(e) && 0 <= index < |e.fragment.a|
    ensures r.Value? ==> r.fragment == e.fragment.a[index]
    ensures r.Error? ==> r.message == if HoldsArray(e) then IndexOutOfBounds(index) else NonexistentArray
  {
    match e.ValueOrNil()
    case Some(Array(a)) =>
      if !(0 <= index < |a|) then Error(IndexOutOfBounds(index)) else Init(Some(a[index]))
    case _ => Error(NonexistentArray)
  }

  /** The corrected getter differs from the code as written only where that code traps. */
  lemma GetIndexAgreesWhereNoTrap(e: Either, index: int)
    ensures GetIndexAsWritten(e, index).Trapped? <==> !CanGetIndex(e, index)
    ensures GetIndexAsWritten(e, index).Returned? ==> GetIndexAsWritten(e, index).accessor == GetIndex(e, index)
  {
  }

  /**
    The index getter as written reaches `a[index]` without trapping: any
    index of a receiver that holds no array, and any non-negative index of
    one that does.  Where this holds, `GetIndex` is what the code returns.
  */
  predicate CanGetIndex(e: Either, index: int)
  {
    HoldsArray(e) ==> 0 <= index
  }

  // ---------------------------------------------------------------------
  // Mutation
  // ---------------------------------------------------------------------

  /**
    The state `set(_:forKey:)` leaves: a failed child's error replaces
    whatever the receiver held; a held child is stored under `key` when the
    receiver holds a dictionary, and any other receiver (a failed one
    included) is left as it was.
  */
  function SetKey(e: Either, newJSON: Either, key: string): (r: Either)
    ensures newJSON.Error? ==> r == Error(newJSON.message)
    ensures newJSON.Value? && HoldsDictionary(e) ==>
      && HoldsDictionary(r)
      && r.fragment.d.Keys == e.fragment.d.Keys + {key}
      && GetKey(r, key) == newJSON
      && forall k | k != key :: GetKey(r, k) == GetKey(e, k)
    ensures newJSON.Value? && !HoldsDictionary(e) ==> r == e
  {
    match newJSON.ErrorOrNil()
    case Some(error) => Error(error)
    case None =>
      match (e.ValueOrNil(), newJSON.ValueOrNil())
      case (Some(Dictionary(d)), Some(newFragment)) => Value(Dictionary(d[key := newFragment]))
      case _ => e
  }

  /** The index setter writes `a[index]` without a bounds check, so a held child needs an index in range. */
  predicate CanSetIndex(e: Either, newJSON: Either, index: int)
  {
    newJSON.Value? && HoldsArray(e) ==> 0 <= index < |e.fragment.a|
  }

  /**
    The state `set(_:atIndex:)` leaves: the same error propagation as the
    key setter; a held child replaces exactly element `index` of an array
    receiver, keeping its length; any other receiver is left as it was.
  */
  function SetIndex(e: Either, newJSON: Either, index: int): (r: Either)
    requires CanSetIndex(e, newJSON, index)
    ensures newJSON.Error? ==> r == Error(newJSON.message)
    ensures newJSON.Value? && HoldsArray(e) ==>
      && HoldsArray(r)
      && |r.fragment.a| == |e.fragment.a|
      && GetIndex(r, index) == newJSON
      && forall j | j != index :: GetIndex(r, j) == GetIndex(e, j)
    ensures newJSON.Value? && !HoldsArray(e) ==> r == e
  {
    match newJSON.ErrorOrNil()
    case Some(error) => Error(error)
    case None =>
      match (e.ValueOrNil(), newJSON.ValueOrNil())
      case (Some(Array(a)), Some(newFragment)) => Value(Array(a[index := newFragment]))
      case _ => e
  }

  /** Once failed, an accessor stays failed under both setters, whatever is assigned into it. */
  lemma FailureIsSticky(message: string, newJSON: Either, key: string, index: int)
    ensures SetKey(Error(message), newJSON, key).Error?
    ensures SetIndex(Error(message), newJSON, index).Error?
    ensures newJSON.Value? ==> SetKey(Error(message), newJSON, key) == Error(message)
    ensures newJSON.Value? ==> SetIndex(Error(message), newJSON, index) == Error(message)
  {
  }

  // ---------------------------------------------------------------------
  // ==
  // ---------------------------------------------------------------------

  /** Accessor `==`: trees against trees, messages against messages, never a tree against a message. */
  function Equals(lhs: Either, rhs: Either): (r: bool)
    ensures r ==> lhs.Value? == rhs.Value?
  {
    match (lhs, rhs)
    case (Value(l), Value(r)) => Fragments.Equals(l, r)
    case (Error(l), Error(r)) => l == r
    case _ => false
  }

  /** Accessor equality is identity of the accessors' states. */
  lemma EqualsIsIdentity(lhs: Either, rhs: Either)
    ensures Equals(lhs, rhs) <==> lhs == rhs
    ensures lhs.Value? != rhs.Value? ==> !Equals(lhs, rhs)
  {
    if lhs.Value? && rhs.Value? {
      EqualsIsStructural(lhs.fragment, rhs.fragment);
    }
  }

  // ---------------------------------------------------------------------
  // Projections
  // ---------------------------------------------------------------------

  /** `dictionary`: the held dictionary cast to native form. */
  function AsDictionary(e: Either): (r: Option<map<string, Native>>)
    ensures r.Some? <==> HoldsDictionary(e)
    ensures r.Some? ==> r.value.Keys == e.fragment.d.Keys
    ensures r.Some? ==> forall k | k in r.value :: r.value[k] == Embed(e.fragment.d[k])
  {
    match e.ValueOrNil()
    case Some(f) =>
      (match Cast(f, DictionaryShape)
       case Some(NDictionary(entries)) => Some(entries)
       case _ => None)
    case None => None
  }

  /** `array`: the held array cast to native form. */
  function AsArray(e: Either): (r: Option<seq<Native>>)
    ensures r.Some? <==> HoldsArray(e)
    ensures r.Some? ==> |r.value| == |e.fragment.a|
    ensures r.Some? ==> forall i | 0 <= i < |r.value| :: r.value[i] == Embed(e.fragment.a[i])
  {
    match e.ValueOrNil()
    case Some(f) =>
      (match Cast(f, ArrayShape)
       case Some(NArray(elements)) => Some(elements)
       case _ => None)
    case None => None
  }

  /** `string`. */
  function AsString(e: Either): (r: Option<string>)
    ensures r.Some? <==> e.Value? && e.fragment.String?
    ensures r.Some? ==> e == Value(String(r.value))
  {
    match e.ValueOrNil()
    case Some(f) =>
      (match Cast(f, StringShape)
       case Some(NString(s)) => Some(s)
       case _ => None)
    case None => None
  }

  /** `double`. */
  function AsDouble(e: Either): (r: Option<real>)
    ensures r.Some? <==> e.Value? && e.fragment.Double?
    ensures r.Some? ==> e == Value(Double(r.value))
  {
    match e.ValueOrNil()
    case Some(f) =>
      (match Cast(f, DoubleShape)
       case Some(NNumber(x)) => Some(x)
       case _ => None)
    case None => None
  }

  /** `bool`. */
  function AsBool(e: Either): (r: Option<bool>)
    ensures r.Some? <==> e.Value? && e.fragment.Bool?
    ensures r.Some? ==> e == Value(Bool(r.value))
  {
    match e.ValueOrNil()
    case Some(f) =>
      (match Cast(f, BoolShape)
       case Some(NBool(b)) => Some(b)
       case _ => None)
    case None => None
  }

  /** `null`: the unit value when the accessor holds null. */
  function AsNull(e: Either): (r: Option<()>)
    ensures r.Some? <==> e == Value(Null)
  {
    match e.ValueOrNil()
    case Some(f) => if Cast(f, NullShape).Some? then Some(()) else None
    case None => None
  }

  /** `Int64(double)`: conversion of a double to an integer, truncating toward zero. */
  function TruncateTowardZero(x: real): (n: int)
    ensures 0.0 <= x ==> n as real <= x < n as real + 1.0
    ensures x < 0.0 ==> n as real - 1.0 < x <= n as real
  {
    if 0.0 <= x then x.Floor else -((-x).Floor)
  }

  /** `int`: the held double truncated toward zero. */
  function AsInt(e: Either): (r: Option<int>)
    ensures r.Some? <==> e.Value? && e.fragment.Double?
    ensures r.Some? ==> r.value == TruncateTowardZero(e.fragment.x)
  {
    match AsDouble(e)
    case Some(x) => Some(TruncateTowardZero(x))
    case None => None
  }

  /** `int` gives back the integer an accessor was built from with `init(int:)`. */
  lemma AsIntOfInt(i: int)
    ensures AsInt(Value(Double(i as real))) == Some(i)
  {
  }

  /** `error`: the message of a failed accessor, nil for a holding one. */
  function ErrorMessage(e: Either): (r: Option<string>)
    ensures r.Some? <==> e.Error?
    ensures r.Some? ==> r.value == e.message
  {
    e.ErrorOrNil()
  }

  /** Every typed projection of a failed accessor is nil. */
  lemma FailedProjectsNothing(message: string)
    ensures AsDictionary(Error(message)).None? && AsArray(Error(message)).None?
    ensures AsString(Error(message)).None? && AsDouble(Error(message)).None?
    ensures AsInt(Error(message)).None? && AsBool(Error(message)).None?
    ensures AsNull(Error(message)).None?
    ensures ErrorMessage(Error(message)) == Some(message)
  {
  }

  // ---------------------------------------------------------------------
  // The struct with its mutating setters
  // ---------------------------------------------------------------------

  /**
    `struct FlexiJSON`.  Its only stored property is `either`; the
    `mutating` subscript setters reassign it after updating a local copy of
    the held dictionary or array.
  */
  class FlexiJSON {
    var either: Either

    /** `init(fragment:)`. */
    constructor (fragment: Option<Fragment>)
      ensures either == Init(fragment)
    {
      if fragment.None? {
        either := Error(NonJsonObject);
      } else {
        either := Value(fragment.value);
      }
    }

    /** `init(error:)`. */
    constructor FromError(error: string)
      ensures either == Error(error)
    {
      either := Error(error);
    }

    /** `init(dictionary:)`. */
    constructor FromDictionary(dictionary: map<string, Native>)
      ensures either == Init(Fragments.From(NDictionary(dictionary)))
    {
      var fragment := Fragments.FromDictionary(dictionary);
      either := Init(fragment);
    }

    /** `init(array:)`. */
    constructor FromArray(elements: seq<Native>)
      ensures either == Init(Fragments.From(NArray(elements)))
    {
      var fragment := Fragments.FromArray(elements);
      either := Init(fragment);
    }

    /** `init(string:)`. */
    constructor FromString(s: string)
      ensures either == Value(String(s))
    {
      either := Value(String(s));
    }

    /** `init(int:)`: the integer is stored as a double. */
    constructor FromInt(i: int)
      ensures either == Value(Double(i as real))
    {
      either := Value(Double(i as real));
    }

    /** `init(double:)`. */
    constructor FromDouble(x: real)
      ensures either == Value(Double(x))
    {
      either := Value(Double(x));
    }

    /** `init(bool:)`. */
    constructor FromBool(b: bool)
      ensures either == Value(Bool(b))
    {
      either := Value(Bool(b));
    }

    /** `init(null:)`. */
    constructor FromNull()
      ensures either == Value(Null)
    {
      either := Value(Null);
    }

    /** The subscript getter by key: a new accessor. */
    method Get(key: string) returns (r: FlexiJSON)
      ensures fresh(r) && r.either == GetKey(either, key)
    {
      if either.Value? && either.fragment.Dictionary? && key in either.fragment.d {
        r := new FlexiJSON(Some(either.fragment.d[key]));
      } else {
        r := new FlexiJSON.FromError(KeyNotFound(key));
      }
    }

    /**
      The subscript getter by index: a new accessor.  A negative index of a
      held array traps at `a[index]`, so it is excluded.
    */
    method GetAt(index: int) returns (r: FlexiJSON)
      requires CanGetIndex(either, index)
      ensures fresh(r) && r.either == GetIndex(either, index)
      ensures r.either == GetIndexAsWritten(either, index).accessor
    {
      if !(either.Value? && either.fragment.Array?) {
        r := new FlexiJSON.FromError(NonexistentArray);
      } else if !(0 <= index < |either.fragment.a|) {
        r := new FlexiJSON.FromError(IndexOutOfBounds(index));
      } else {
        r := new FlexiJSON(Some(either.fragment.a[index]));
      }
    }

    /** `set(_:forKey:)`, the subscript setter by key. */
    method Set(newJSON: FlexiJSON, key: string)
      modifies this
      ensures either == SetKey(old(either), old(newJSON.either), key)
    {
      if newJSON.either.Error? {
        either := Error(newJSON.either.message);
        return;
      }
      if either.Value? && either.fragment.Dictionary? && newJSON.either.Value? {
        var d := either.fragment.d;
        d := d[key := newJSON.either.fragment];
        either := Value(Dictionary(d));
      }
    }

    /** `set(_:atIndex:)`, the subscript setter by index. */
    method SetAt(newJSON: FlexiJSON, index: int)
      requires CanSetIndex(either, newJSON.either, index)
      modifies this
      ensures either == SetIndex(old(either), old(newJSON.either), index)
    {
      if newJSON.either.Error? {
        either := Error(newJSON.either.message);
        return;
      }
      if either.Value? && either.fragment.Array? && newJSON.either.Value? {
        var a := either.fragment.a;
        a := a[index := newJSON.either.fragment];
        either := Value(Array(a));
      }
    }
  }
}
