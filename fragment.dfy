/**
  The value tree (`FlexiJSON.Fragment`; the oldest copy calls the same
  six-way enum `Value`): validation from a native graph, casting back to a
  native shape, the debug description and deep structural equality.
*/
module Fragments {
  import opened Wrappers
  import opened NativeGraph

  datatype Fragment =
    | Dictionary(d: map<string, Fragment>)
    | Array(a: seq<Fragment>)
    | String(s: string)
    | Double(x: real)
    | Bool(b: bool)
    | Null

  /**
    The native object a fragment stands for.  It is the reference that
    `From` inverts and that `Cast` produces.
  */
  function Embed(f: Fragment): (n: Native)
    ensures JsonShaped(n)
    decreases f
  {
    match f
    case Dictionary(d) => NDictionary(map k | k in d :: Embed(d[k]))
    case Array(a) => NArray(seq(|a|, i requires 0 <= i < |a| => Embed(a[i])))
    case String(s) => NString(s)
    case Double(x) => NNumber(x)
    case Bool(b) => NBool(b)
    case Null => NNull
  }

  // ---------------------------------------------------------------------
  // from
  // ---------------------------------------------------------------------

  /**
    `Fragment.from(_: Any)`: recognised leaves map to their own variants,
    dictionaries and arrays are converted child by child, and a single
    unrecognised descendant makes the whole conversion nil.  The result
    is `Some` exactly on JSON-shaped graphs, and then it is the fragment
    whose embedding is the input.
  */
  function From(n: Native): (r: Option<Fragment>)
    ensures r.Some? <==> JsonShaped(n)
    ensures r.Some? ==> Embed(r.value) == n
    decreases n
  {
    match n
    case NString(s) => Some(String(s))
    case NNumber(x) => Some(Double(x))
    case NBool(b) => Some(Bool(b))
    case NDictionary(entries) =>
      if forall k | k in entries :: From(entries[k]).Some? then
        var result := map k | k in entries :: From(entries[k]).value;
        assert (map k | k in result :: Embed(result[k])) == entries;
        Some(Dictionary(result))
      else
        None
    case NArray(elements) =>
      if forall i | 0 <= i < |elements| :: From(elements[i]).Some? then
        var result := seq(|elements|, i requires 0 <= i < |elements| => From(elements[i]).value);
        assert seq(|result|, i requires 0 <= i < |result| => Embed(result[i])) == elements;
        Some(Array(result))
      else
        None
    case NNull => Some(Null)
    case NUnknown => None
  }

  /**
    `from(_: JSONDictionary)`: fills `result` entry by entry, in the
    dictionary's (unspecified) iteration order, and returns nil as soon as
    one value does not convert.
  */
  method FromDictionary(dictionary: map<string, Native>) returns (r: Option<Fragment>)
    ensures r == From(NDictionary(dictionary))
  {
    var result: map<string, Fragment> := map[];
    var remaining := dictionary.Keys;
    while remaining != {}
      invariant remaining <= dictionary.Keys
      invariant result.Keys == dictionary.Keys - remaining
      invariant forall k | k in result :: From(dictionary[k]) == Some(result[k])
      decreases remaining
    {
      var key :| key in remaining;
      var value := From(dictionary[key]);
      if value.None? {
        return None;
      }
      result := result[key := value.value];
      remaining := remaining - {key};
    }
    assert forall k | k in dictionary :: From(dictionary[k]).Some?;
    var converted := From(NDictionary(dictionary)).value.d;
    assert forall k | k in dictionary :: converted[k] == result[k];
    assert converted == result;
    return Some(Dictionary(result));
  }

  /**
    `from(_: JSONArray)`: appends the converted elements in order and
    returns nil as soon as one element does not convert.
  */
  method FromArray(elements: seq<Native>) returns (r: Option<Fragment>)
    ensures r == From(NArray(elements))
  {
    var result: seq<Fragment> := [];
    var i := 0;
    while i < |elements|
      invariant 0 <= i <= |elements|
      invariant |result| == i
      invariant forall j | 0 <= j < i :: From(elements[j]).Some? && result[j] == From(elements[j]).value
    {
      var fragment := From(elements[i]);
      if fragment.None? {
        return None;
      }
      result := result + [fragment.value];
      i := i + 1;
    }
    assert result == seq(|elements|, j requires 0 <= j < |elements| => From(elements[j]).value);
    return Some(Array(result));
  }

  /** Leaves convert to their own variants; the unknown leaf does not convert. */
  lemma FromLeaves(s: string, x: real, b: bool)
    ensures From(NString(s)) == Some(String(s))
    ensures From(NNumber(x)) == Some(Double(x))
    ensures From(NBool(b)) == Some(Bool(b))
    ensures From(NNull) == Some(Null)
    ensures From(NUnknown) == None
  {
  }

  /** A successful array conversion keeps the length and converts element i to element i. */
  lemma FromArrayPointwise(elements: seq<Native>)
    ensures From(NArray(elements)).Some? <==> forall i | 0 <= i < |elements| :: From(elements[i]).Some?
    ensures From(NArray(elements)).Some? ==>
      var a := From(NArray(elements)).value.a;
      |a| == |elements| && forall i | 0 <= i < |elements| :: Some(a[i]) == From(elements[i])
  {
  }

  /** A successful dictionary conversion has exactly the input's keys, each value converted. */
  lemma FromDictionaryPointwise(entries: map<string, Native>)
    ensures From(NDictionary(entries)).Some? <==> forall k | k in entries :: From(entries[k]).Some?
    ensures From(NDictionary(entries)).Some? ==>
      var d := From(NDictionary(entries)).value.d;
      d.Keys == entries.Keys && forall k | k in entries :: Some(d[k]) == From(entries[k])
  {
  }

  /** One unrecognised value makes the dictionary around it fail as a whole. */
  lemma UnknownValueFailsDictionary(entries: map<string, Native>, key: string)
    requires key in entries && !JsonShaped(entries[key])
    ensures From(NDictionary(entries)) == None
  {
  }

  /** One unrecognised element makes the array around it fail as a whole. */
  lemma UnknownElementFailsArray(elements: seq<Native>, i: int)
    requires 0 <= i < |elements| && !JsonShaped(elements[i])
    ensures From(NArray(elements)) == None
  {
  }

  /** Converting the embedding of a fragment gives the fragment back. */
  lemma {:induction false} FromEmbed(f: Fragment)
    ensures From(Embed(f)) == Some(f)
    decreases f
  {
    match f
    case Dictionary(d) =>
      forall k | k in d
        ensures From(Embed(d[k])) == Some(d[k])
      {
        FromEmbed(d[k]);
      }
      var entries := Embed(f).entries;
      assert entries.Keys == d.Keys;
      assert forall k | k in d :: entries[k] == Embed(d[k]);
      var converted := From(Embed(f)).value.d;
      assert forall k | k in d :: converted[k] == d[k];
      assert converted == d;
    case Array(a) =>
      forall i | 0 <= i < |a|
        ensures From(Embed(a[i])) == Some(a[i])
      {
        FromEmbed(a[i]);
      }
      var elements := Embed(f).elements;
      assert forall i | 0 <= i < |a| :: elements[i] == Embed(a[i]);
      assert seq(|elements|, i requires 0 <= i < |elements| => From(elements[i]).value) == a;
    case _ =>
  }

  // ---------------------------------------------------------------------
  // cast
  // ---------------------------------------------------------------------

  /** Swift's `x as? T`: the object itself when it is of the requested shape. */
  function AsShape(n: Native, shape: Shape): (r: Option<Native>)
  {
    if Conforms(n, shape) then Some(n) else None
  }

  /**
    `cast(_:)`: a scalar casts only to its own shape (or to Any); a
    dictionary or an array builds its native counterpart by casting every
    child to Any (`jsonDictionary`, `jsonArray`) and then casts that.  The
    result is the native embedding of the fragment whenever the requested
    shape fits it, and nil otherwise.
  */
  function Cast(f: Fragment, shape: Shape): (r: Option<Native>)
    ensures r.Some? <==> Conforms(Embed(f), shape)
    ensures r.Some? ==> r.value == Embed(f)
    decreases f
  {
    match f
    case String(s) => AsShape(NString(s), shape)
    case Double(x) => AsShape(NNumber(x), shape)
    case Bool(b) => AsShape(NBool(b), shape)
    case Dictionary(d) =>
      // `result[key] = value.cast(Any.self)` drops a key whose cast is nil
      var result := map k | k in d && Cast(d[k], AnyShape).Some? :: Cast(d[k], AnyShape).value;
      assert result == map k | k in d :: Embed(d[k]);
      AsShape(NDictionary(result), shape)
    case Array(a) =>
      // `array.map { $0.cast(Any.self)! }`: the forced unwrap never fails
      AsShape(NArray(seq(|a|, i requires 0 <= i < |a| => Cast(a[i], AnyShape).value)), shape)
    case Null => AsShape(NNull, shape)
  }

  /**
    `jsonDictionary(_:)`: casts every value to Any and stores it under its
    key, removing the key when the cast is nil.  The result has the input's
    keys with every value embedded.
  */
  method JsonDictionary(dictionary: map<string, Fragment>) returns (r: Option<map<string, Native>>)
    ensures r == Some(map k | k in dictionary :: Embed(dictionary[k]))
  {
    var result: map<string, Native> := map[];
    var remaining := dictionary.Keys;
    while remaining != {}
      invariant remaining <= dictionary.Keys
      invariant result == map k | k in dictionary.Keys - remaining :: Embed(dictionary[k])
      decreases remaining
    {
      var key :| key in remaining;
      var value := Cast(dictionary[key], AnyShape);
      result := if value.Some? then result[key := value.value] else result - {key};
      remaining := remaining - {key};
    }
    assert dictionary.Keys - remaining == dictionary.Keys;
    return Some(result);
  }

  /** The shape a fragment's own variant casts to. */
  function ShapeOf(f: Fragment): Shape
  {
    match f
    case Dictionary(_) => DictionaryShape
    case Array(_) => ArrayShape
    case String(_) => StringShape
    case Double(_) => DoubleShape
    case Bool(_) => BoolShape
    case Null => NullShape
  }

  /** A cast succeeds exactly for the fragment's own shape and for Any. */
  lemma CastSucceedsOnlyForOwnShape(f: Fragment, shape: Shape)
    ensures Cast(f, shape).Some? <==> shape == AnyShape || shape == ShapeOf(f)
  {
  }

  /** Scalars cast to the native value they hold. */
  lemma CastScalars(s: string, x: real, b: bool)
    ensures Cast(String(s), StringShape) == Some(NString(s))
    ensures Cast(Double(x), DoubleShape) == Some(NNumber(x))
    ensures Cast(Bool(b), BoolShape) == Some(NBool(b))
    ensures Cast(Null, NullShape) == Some(NNull)
  {
  }

  /**
    Casting a container casts every child recursively: the dictionary
    keeps its keys, the array its length and order.
  */
  lemma CastContainers(d: map<string, Fragment>, a: seq<Fragment>)
    ensures Cast(Dictionary(d), DictionaryShape).Some?
    ensures var m := Cast(Dictionary(d), DictionaryShape).value.entries;
      m.Keys == d.Keys && forall k | k in d :: Some(m[k]) == Cast(d[k], AnyShape)
    ensures Cast(Array(a), ArrayShape).Some?
    ensures var s := Cast(Array(a), ArrayShape).value.elements;
      |s| == |a| && forall i | 0 <= i < |a| :: Some(s[i]) == Cast(a[i], AnyShape)
  {
  }

  /** Validating a tree cast back to Any restores the tree. */
  lemma FromCastRoundTrip(f: Fragment)
    ensures Cast(f, AnyShape).Some? && From(Cast(f, AnyShape).value) == Some(f)
  {
    FromEmbed(f);
  }

  /** Casting a validated graph back to Any restores the graph. */
  lemma CastFromRoundTrip(n: Native)
    requires JsonShaped(n)
    ensures Cast(From(n).value, AnyShape) == Some(n)
  {
  }

  // ---------------------------------------------------------------------
  // description
  // ---------------------------------------------------------------------

  /**
    `description`: a string renders as itself, unquoted, and null as
    "null".  Doubles, dictionaries and arrays are rendered by Swift's
    standard library, which is passed in as `library`.
  */
  function Description(f: Fragment, library: Fragment -> string): string
  {
    match f
    case String(s) => s
    case Dictionary(_) => library(f)
    case Array(_) => library(f)
    case Double(_) => library(f)
    case Bool(b) => if b then "true" else "false"
    case Null => "null"
  }

  /**
    Strings are not quoted, so the debug description is no serializer: the
    string "null" and the null fragment render alike.
  */
  lemma DescriptionOfStringIsRaw(s: string, library: Fragment -> string)
    ensures Description(String(s), library) == s
    ensures Description(Null, library) == "null"
    ensures Description(String("null"), library) == Description(Null, library)
    ensures String("null") != Null
  {
  }

  // ---------------------------------------------------------------------
  // ==
  // ---------------------------------------------------------------------

  /**
    The private dictionary `==`: equal counts, and every key of the left
    maps to an equal value on the right (`lhs[key] != rhs[key]` compares
    optionals, so a key missing on the right makes them unequal).
  */
  function DictEquals(lhs: map<string, Fragment>, rhs: map<string, Fragment>): bool
    decreases Dictionary(lhs), 0
  {
    |lhs| == |rhs| && forall key | key in lhs :: key in rhs && Equals(lhs[key], rhs[key])
  }

  /**
    Fragment `==`: like variants compare by value or recursively, null
    equals null, and any two different variants are unequal.
  */
  function Equals(lhs: Fragment, rhs: Fragment): (r: bool)
    ensures r ==> ShapeOf(lhs) == ShapeOf(rhs)
    decreases lhs, 1
  {
    match (lhs, rhs)
    case (String(l), String(r)) => l == r
    case (Dictionary(l), Dictionary(r)) => DictEquals(l, r)
    case (Double(l), Double(r)) => l == r
    case (Bool(l), Bool(r)) => l == r
    case (Array(l), Array(r)) => |l| == |r| && forall i | 0 <= i < |l| :: Equals(l[i], r[i])
    case (Null, Null) => true
    case _ => false
  }

  /** A subset as large as its superset is the superset. */
  lemma SubsetOfSameSize<T>(a: set<T>, b: set<T>)
    requires a <= b && |a| == |b|
    ensures a == b
  {
    assert b == a + (b - a);
    assert a * (b - a) == {};
    assert |b - a| == 0;
  }

  /** Deep equality is exactly structural identity of the trees. */
  lemma {:induction false} EqualsIsStructural(lhs: Fragment, rhs: Fragment)
    ensures Equals(lhs, rhs) <==> lhs == rhs
    decreases lhs
  {
    match (lhs, rhs)
    case (Dictionary(l), Dictionary(r)) =>
      forall k | k in l && k in r
        ensures Equals(l[k], r[k]) <==> l[k] == r[k]
      {
        EqualsIsStructural(l[k], r[k]);
      }
      if DictEquals(l, r) {
        SubsetOfSameSize(l.Keys, r.Keys);
        assert l == r;
      }
    case (Array(l), Array(r)) =>
      forall i | 0 <= i < |l| && i < |r|
        ensures Equals(l[i], r[i]) <==> l[i] == r[i]
      {
        EqualsIsStructural(l[i], r[i]);
      }
      if |l| == |r| && forall i | 0 <= i < |l| :: Equals(l[i], r[i]) {
        assert l == r;
      }
    case _ =>
  }

  /**
    Dictionary equality is identity of the key-to-value mappings, so it
    does not depend on the order in which the keys were inserted.
  */
  lemma DictEqualsIsMapEquality(lhs: map<string, Fragment>, rhs: map<string, Fragment>)
    ensures DictEquals(lhs, rhs) <==> lhs == rhs
  {
    EqualsIsStructural(Dictionary(lhs), Dictionary(rhs));
  }

  /** Every tree equals itself. */
  lemma EqualsIsReflexive(f: Fragment)
    ensures Equals(f, f)
  {
    EqualsIsStructural(f, f);
  }

  /** Two graphs converted independently from equal input compare equal. */
  lemma IndependentConversionsCompareEqual(n1: Native, n2: Native)
    requires n1 == n2 && JsonShaped(n1)
    ensures Equals(From(n1).value, From(n2).value)
  {
    EqualsIsStructural(From(n1).value, From(n2).value);
  }

  /** Any two fragments of different variants are unequal; null equals null. */
  lemma CrossVariantUnequal(lhs: Fragment, rhs: Fragment)
    ensures ShapeOf(lhs) != ShapeOf(rhs) ==> !Equals(lhs, rhs)
    ensures Equals(Null, Null)
  {
  }

  /** Changing one element of an array makes it unequal to the original. */
  lemma OneLeafDiffers(a: seq<Fragment>, i: int, f: Fragment)
    requires 0 <= i < |a| && a[i] != f
    ensures !Equals(Array(a), Array(a[i := f]))
  {
    EqualsIsStructural(Array(a), Array(a[i := f]));
    assert a[i := f][i] != a[i];
  }
}
