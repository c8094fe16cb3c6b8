/**
  The oldest copy of the value tree (`FlexiJSON.Value`).  Its enum has the
  same six variants as `Fragment`, so the model reuses that datatype; what
  differs is `from`, which is total and traps (`fatalError()`) on an
  unrecognised leaf instead of returning nil.  The trap becomes the
  precondition that the graph is JSON-shaped.  Its `cast`, `jsonDictionary`
  and `==` are the same code as the `Fragment` ones and are modelled there.
*/
module Values {
  import opened Wrappers
  import opened NativeGraph
  import opened Fragments

  /**
    `Value.from(anyObject:)`: every leaf maps to its own variant and
    containers are converted child by child, so embedding the result gives
    the input back.
  */
  function From(n: Native): (r: Fragment)
    requires JsonShaped(n)
    ensures Embed(r) == n
    decreases n
  {
    match n
    case NString(s) => String(s)
    case NNumber(x) => Double(x)
    case NBool(b) => Bool(b)
    case NDictionary(entries) =>
      var result := map k | k in entries :: From(entries[k]);
      assert forall k | k in entries :: Embed(result[k]) == entries[k];
      assert Embed(Dictionary(result)).entries == entries;
      Dictionary(result)
    case NArray(elements) =>
      // `from(array:)` is `array.map { from($0) }`
      var result := seq(|elements|, i requires 0 <= i < |elements| => From(elements[i]));
      assert forall i | 0 <= i < |elements| :: Embed(result[i]) == elements[i];
      assert Embed(Array(result)).elements == elements;
      Array(result)
    case NNull => Null
  }

  /**
    `from(dictionary:)`: stores every converted value under its key, in the
    dictionary's (unspecified) iteration order.
  */
  method FromDictionary(dictionary: map<string, Native>) returns (r: Fragment)
    requires forall k | k in dictionary :: JsonShaped(dictionary[k])
    ensures r == From(NDictionary(dictionary))
  {
    var result: map<string, Fragment> := map[];
    var remaining := dictionary.Keys;
    while remaining != {}
      invariant remaining <= dictionary.Keys
      invariant result.Keys == dictionary.Keys - remaining
      invariant forall k | k in result :: result[k] == From(dictionary[k])
      decreases remaining
    {
      var key :| key in remaining;
      result := result[key := From(dictionary[key])];
      remaining := remaining - {key};
    }
    var converted := From(NDictionary(dictionary)).d;
    assert forall k | k in dictionary :: converted[k] == result[k];
    assert converted == result;
    return Dictionary(result);
  }

  /** A dictionary converts to a dictionary with exactly the input keys, each converted. */
  lemma FromDictionaryPointwise(entries: map<string, Native>)
    requires JsonShaped(NDictionary(entries))
    ensures From(NDictionary(entries)).Dictionary?
    ensures var d := From(NDictionary(entries)).d;
      d.Keys == entries.Keys && forall k | k in entries :: d[k] == From(entries[k])
  {
  }

  /** An array converts to an array of the same length whose i-th element is element i converted. */
  lemma FromArrayPointwise(elements: seq<Native>)
    requires JsonShaped(NArray(elements))
    ensures From(NArray(elements)).Array?
    ensures var a := From(NArray(elements)).a;
      |a| == |elements| && forall i | 0 <= i < |elements| :: a[i] == From(elements[i])
  {
  }

  /**
    On the graphs where the oldest conversion does not trap it agrees with
    the current one, which returns nil exactly where the oldest traps.
  */
  lemma {:induction false} AgreesWithFragmentFrom(n: Native)
    ensures JsonShaped(n) ==> Fragments.From(n) == Some(From(n))
    ensures !JsonShaped(n) ==> Fragments.From(n) == None
  {
    if JsonShaped(n) {
      FromEmbed(From(n));
    }
  }

  /** `cast` of the oldest copy: null casts to the JSONNull shape, every other scalar only to its own type. */
  lemma CastOfScalars(s: string, x: real, b: bool, shape: Shape)
    ensures Cast(Null, shape).Some? <==> shape == NullShape || shape == AnyShape
    ensures Cast(String(s), shape).Some? <==> shape == StringShape || shape == AnyShape
    ensures Cast(Double(x), shape).Some? <==> shape == DoubleShape || shape == AnyShape
    ensures Cast(Bool(b), shape).Some? <==> shape == BoolShape || shape == AnyShape
  {
  }
}
