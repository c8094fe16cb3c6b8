/**
  The iteration adapter (`generate`): an array-backed accessor yields one
  accessor per element, in order; a dictionary-backed one yields one
  single-entry dictionary per entry; anything else yields nothing.
*/
module Sequences {
  import opened Wrappers
  import opened NativeGraph
  import opened Fragments
  import opened Accessors

  /** A duplicate-free listing of exactly `keys`. */
  predicate IsEnumeration(order: seq<string>, keys: set<string>)
  {
    && (forall i | 0 <= i < |order| :: order[i] in keys)
    && (forall k | k in keys :: k in order)
    && (forall i, j | 0 <= i < j < |order| :: order[i] != order[j])
  }

  /**
    Swift's dictionary iterates in an order of its own choosing; the model
    takes that order as a parameter, which must list the held dictionary's
    keys once each.
  */
  predicate IterationOrder(e: Either, order: seq<string>)
  {
    HoldsDictionary(e) ==> IsEnumeration(order, e.fragment.d.Keys)
  }

  /** `arrayToFlexiJSON`: an element of the native array, validated again. */
  function ArrayToFlexiJSON(value: Native): (r: Either)
    ensures r.Value? <==> JsonShaped(value)
    ensures r.Value? ==> Embed(r.fragment) == value
  {
    Init(Fragments.From(value))
  }

  /** `dictionaryToFlexiJSON`: an entry of the native dictionary as a one-entry dictionary. */
  function DictionaryToFlexiJSON(key: string, value: Native): (r: Either)
    ensures r.Value? <==> JsonShaped(value)
    ensures r.Value? ==> r.fragment.Dictionary? && r.fragment.d.Keys == {key}
  {
    var single := map[key := value];
    assert single.Keys == {key} && single[key] == value;
    Init(Fragments.From(NDictionary(single)))
  }

  /**
    `generate`: maps the `array` projection, or else the `dictionary`
    projection, to accessors; any other accessor gives the empty sequence.
  */
  function Generate(e: Either, order: seq<string>): (r: seq<Either>)
    requires IterationOrder(e, order)
    ensures HoldsArray(e) ==> |r| == |e.fragment.a|
    ensures HoldsDictionary(e) ==> |r| == |order|
    ensures !HoldsArray(e) && !HoldsDictionary(e) ==> r == []
  {
    match AsArray(e)
    case Some(elements) => seq(|elements|, i requires 0 <= i < |elements| => ArrayToFlexiJSON(elements[i]))
    case None =>
      match AsDictionary(e)
      case Some(dictionary) =>
        seq(|order|, i requires 0 <= i < |order| => DictionaryToFlexiJSON(order[i], dictionary[order[i]]))
      case None => []
  }

  /** An enumeration of a key set is as long as the set is large. */
  lemma {:induction false} EnumerationSize(order: seq<string>, keys: set<string>)
    requires IsEnumeration(order, keys)
    ensures |order| == |keys|
    decreases |order|
  {
    if order != [] {
      var last := order[|order| - 1];
      var rest := order[..|order| - 1];
      forall k | k in keys - {last}
        ensures k in rest
      {
        var i :| 0 <= i < |order| && order[i] == k;
        assert i != |order| - 1;
        assert rest[i] == k;
      }
      EnumerationSize(rest, keys - {last});
    }
  }

  /** An array-backed accessor yields exactly one accessor per element, element i wrapped at position i. */
  lemma GenerateArray(a: seq<Fragment>, order: seq<string>)
    ensures |Generate(Value(Array(a)), order)| == |a|
    ensures forall i | 0 <= i < |a| :: Generate(Value(Array(a)), order)[i] == Value(a[i])
  {
    forall i | 0 <= i < |a|
      ensures Generate(Value(Array(a)), order)[i] == Value(a[i])
    {
      FromEmbed(a[i]);
    }
  }

  /** The one-entry dictionary an entry is yielded as. */
  function Entry(d: map<string, Fragment>, key: string): Either
    requires key in d
  {
    Value(Dictionary(map[key := d[key]]))
  }

  lemma DictionaryItem(d: map<string, Fragment>, key: string)
    requires key in d
    ensures DictionaryToFlexiJSON(key, Embed(d[key])) == Entry(d, key)
  {
    var single := map[key := d[key]];
    FromEmbed(Dictionary(single));
    assert Embed(Dictionary(single)).entries == map[key := Embed(d[key])];
  }

  /** Item i of a dictionary-backed accessor is the entry under the i-th key of the iteration order. */
  lemma GenerateDictionaryItems(d: map<string, Fragment>, order: seq<string>)
    requires IsEnumeration(order, d.Keys)
    ensures |Generate(Value(Dictionary(d)), order)| == |order|
    ensures forall i | 0 <= i < |order| :: Generate(Value(Dictionary(d)), order)[i] == Entry(d, order[i])
  {
    var e := Value(Dictionary(d));
    var entries := AsDictionary(e).value;
    var items := Generate(e, order);
    forall i | 0 <= i < |order|
      ensures items[i] == Entry(d, order[i])
    {
      assert items[i] == DictionaryToFlexiJSON(order[i], entries[order[i]]);
      DictionaryItem(d, order[i]);
    }
  }

  /**
    A dictionary-backed accessor yields exactly one item per entry, each a
    one-entry dictionary `{key: value}` (not the bare value), and every
    entry is yielded.
  */
  lemma GenerateDictionary(d: map<string, Fragment>, order: seq<string>)
    requires IsEnumeration(order, d.Keys)
    ensures |Generate(Value(Dictionary(d)), order)| == |d|
    ensures forall i | 0 <= i < |order| :: Generate(Value(Dictionary(d)), order)[i] == Entry(d, order[i])
    ensures forall k | k in d :: exists i | 0 <= i < |order| :: Generate(Value(Dictionary(d)), order)[i] == Entry(d, k)
  {
    EnumerationSize(order, d.Keys);
    GenerateDictionaryItems(d, order);
    var items := Generate(Value(Dictionary(d)), order);
    forall k | k in d
      ensures exists i | 0 <= i < |order| :: items[i] == Entry(d, k)
    {
      var i :| 0 <= i < |order| && order[i] == k;
      assert items[i] == Entry(d, k);
    }
  }

  /** A scalar or failed accessor yields nothing; so do an empty array and an empty dictionary. */
  lemma GenerateNothing(e: Either, order: seq<string>)
    requires IterationOrder(e, order)
    ensures !HoldsArray(e) && !HoldsDictionary(e) ==> Generate(e, order) == []
    ensures e == Value(Array([])) ==> Generate(e, order) == []
    ensures e == Value(Dictionary(map[])) ==> Generate(e, order) == []
  {
    if e == Value(Dictionary(map[])) {
      EnumerationSize(order, {});
    }
  }
}
