/**
  The two subscripts and what chaining them means.  The accessor is a
  struct, so a nested assignment `json["1"]["2"]["3"] = v` reads each
  intermediate accessor with the getter, assigns into the innermost one and
  writes every intermediate back with the setter, outermost last.
*/
module Subscripts {
  import opened Fragments
  import opened Accessors

  /** One step of a subscript chain: `[key]` or `[index]`. */
  datatype Subscript = Key(key: string) | Index(index: int)

  /** The getter of `subscript(key:)` or `subscript(index:)`. */
  function Get(e: Either, s: Subscript): Either
  {
    match s
    case Key(key) => GetKey(e, key)
    case Index(index) => GetIndex(e, index)
  }

  /**
    The getter does not trap: the key getter never does, and the index
    getter as written traps on a negative index of a held array.
  */
  predicate CanGet(e: Either, s: Subscript)
  {
    s.Index? ==> CanGetIndex(e, s.index)
  }

  /** The index setter traps on an index out of range; the key setter always succeeds. */
  predicate CanSet(e: Either, s: Subscript, newJSON: Either)
  {
    s.Index? ==> CanSetIndex(e, newJSON, s.index)
  }

  /** The setter of `subscript(key:)` or `subscript(index:)`. */
  function Set(e: Either, s: Subscript, newJSON: Either): Either
    requires CanSet(e, s, newJSON)
  {
    match s
    case Key(key) => SetKey(e, newJSON, key)
    case Index(index) => SetIndex(e, newJSON, index)
  }

  /** Where the getter does not trap, it returns what the code as written returns. */
  lemma CanGetIsNoTrap(e: Either, s: Subscript)
    ensures s.Index? ==> (CanGet(e, s) <==> GetIndexAsWritten(e, s.index).Returned?)
    ensures s.Index? && CanGet(e, s) ==> GetIndexAsWritten(e, s.index).accessor == Get(e, s)
  {
    if s.Index? {
      GetIndexAgreesWhereNoTrap(e, s.index);
    }
  }

  /** A chained read `e[s0][s1]...`. */
  function GetPath(e: Either, path: seq<Subscript>): Either
    decreases |path|
  {
    if path == [] then e else GetPath(Get(e, path[0]), path[1..])
  }

  /** No getter along a chained read traps. */
  predicate CanGetPath(e: Either, path: seq<Subscript>)
    decreases |path|
  {
    path == [] || (CanGet(e, path[0]) && CanGetPath(Get(e, path[0]), path[1..]))
  }

  /**
    No step of a chained assignment traps: the getters that read every
    level but the last, and the setters that write every level back.
  */
  predicate CanSetPath(e: Either, path: seq<Subscript>, v: Either)
    decreases |path|, 0
  {
    path == [] ||
    ((|path| > 1 ==> CanGet(e, path[0])) &&
     CanSetPath(Get(e, path[0]), path[1..], v) &&
     CanSet(e, path[0], SetPath(Get(e, path[0]), path[1..], v)))
  }

  /** The state a chained assignment `e[s0][s1]... = v` leaves `e` in. */
  function SetPath(e: Either, path: seq<Subscript>, v: Either): Either
    requires CanSetPath(e, path, v)
    decreases |path|, 1
  {
    if path == [] then v else Set(e, path[0], SetPath(Get(e, path[0]), path[1..], v))
  }

  /** Every read through a failed accessor fails, and none of its getters traps. */
  lemma {:induction false} GetPathOfFailed(message: string, path: seq<Subscript>)
    ensures CanGetPath(Error(message), path)
    ensures GetPath(Error(message), path).Error?
    decreases |path|
  {
    if path != [] {
      GetPathOfFailed(Get(Error(message), path[0]).message, path[1..]);
    }
  }

  /** The chain without its last step: the accessor the last setter is applied to. */
  function Parent(path: seq<Subscript>): seq<Subscript>
    requires path != []
  {
    path[..|path| - 1]
  }

  /**
    A chained assignment traps whenever reading the chain up to the
    assigned position traps: the getters run before any setter.
  */
  lemma {:induction false} CanSetPathNeedsReadableParent(e: Either, path: seq<Subscript>, v: Either)
    requires path != [] && CanSetPath(e, path, v)
    ensures CanGetPath(e, Parent(path))
    decreases |path|
  {
    if |path| == 1 {
      assert Parent(path) == [];
    } else {
      var s, rest := path[0], path[1..];
      assert Parent(path)[0] == s && Parent(path)[1..] == Parent(rest);
      CanSetPathNeedsReadableParent(Get(e, s), rest, v);
    }
  }

  /** `json[-1]["x"] = FlexiJSON(error: "m")` on an array traps in the getter of `json[-1]`. */
  lemma NegativeIndexInChainTraps()
    ensures !CanSetPath(Value(Array([Null])), [Index(-1), Key("x")], Value(String("m")))
    ensures !CanSetPath(Value(Array([Null])), [Index(-1), Key("x")], Error("m"))
  {
    assert !CanGet(Value(Array([Null])), Index(-1));
  }

  /**
    Assigning a failed accessor anywhere along a non-empty chain whose
    reads do not trap leaves the whole accessor failed with that
    accessor's message, and no setter traps.
  */
  lemma {:induction false} SetPathPropagatesError(e: Either, path: seq<Subscript>, message: string)
    requires path != [] && CanGetPath(e, Parent(path))
    ensures CanSetPath(e, path, Error(message))
    ensures SetPath(e, path, Error(message)) == Error(message)
    decreases |path|
  {
    if |path| > 1 {
      var s, rest := path[0], path[1..];
      assert Parent(path)[0] == s && Parent(path)[1..] == Parent(rest);
      SetPathPropagatesError(Get(e, s), rest, message);
    } else {
      assert path[1..] == [];
      assert CanSet(e, path[0], Error(message));
    }
  }

  /**
    When the parent of the assigned position cannot be read, a held value
    assigned there is lost and the whole accessor is left failed with the
    parent's error: the failed parent ignores the assignment, and writing
    it back up the chain propagates its error to the top.
  */
  lemma {:induction false} SetPathThroughFailedParent(e: Either, path: seq<Subscript>, v: Either)
    requires path != [] && v.Value?
    requires CanGetPath(e, Parent(path)) && GetPath(e, Parent(path)).Error?
    ensures CanSetPath(e, path, v)
    ensures SetPath(e, path, v) == GetPath(e, Parent(path))
    decreases |path|
  {
    if |path| == 1 {
      assert path[1..] == [];
      assert Parent(path) == [];
      assert e.Error? && CanSet(e, path[0], v);
    } else {
      var s, rest := path[0], path[1..];
      assert Parent(path)[0] == s && Parent(path)[1..] == Parent(rest);
      SetPathThroughFailedParent(Get(e, s), rest, v);
    }
  }

  /** A chained assignment into a failed accessor never traps and leaves it failed. */
  lemma SetPathOnFailed(message: string, path: seq<Subscript>, v: Either)
    requires path != []
    ensures CanSetPath(Error(message), path, v)
    ensures SetPath(Error(message), path, v).Error?
  {
    GetPathOfFailed(message, Parent(path));
    if v.Error? {
      SetPathPropagatesError(Error(message), path, v.message);
    } else {
      SetPathThroughFailedParent(Error(message), path, v);
    }
  }

  /** A chain that reads to a held accessor has no trapping getter: every index on it is in range. */
  lemma {:induction false} ReadableChainDoesNotTrap(e: Either, path: seq<Subscript>)
    requires GetPath(e, path).Value?
    ensures CanGetPath(e, path)
    decreases |path|
  {
    if path != [] {
      var child := Get(e, path[0]);
      if child.Error? {
        GetPathOfFailed(child.message, path[1..]);
        assert false;
      }
      ReadableChainDoesNotTrap(child, path[1..]);
    }
  }

  /**
    Where the chain can be read, assigning a held accessor through it does
    not trap, keeps the receiver held, and reading the chain back gives
    exactly the assigned accessor.
  */
  lemma {:induction false} GetAfterSetPath(e: Either, path: seq<Subscript>, v: Either)
    requires GetPath(e, path).Value? && v.Value?
    ensures CanSetPath(e, path, v)
    ensures SetPath(e, path, v).Value?
    ensures GetPath(SetPath(e, path, v), path) == v
    decreases |path|
  {
    if path != [] {
      var s, rest := path[0], path[1..];
      var child := Get(e, s);
      if child.Error? {
        GetPathOfFailed(child.message, rest);
        assert false;
      }
      GetAfterSetPath(child, rest, v);
      var w := SetPath(child, rest, v);
      assert CanSet(e, s, w);
      assert Get(Set(e, s, w), s) == w;
    }
  }

  /**
    A chained assignment that can be read changes only the entry it goes
    through: every other first-level subscript reads the same afterwards.
  */
  lemma SetPathKeepsSiblings(e: Either, path: seq<Subscript>, v: Either, other: Subscript)
    requires GetPath(e, path).Value? && v.Value?
    requires path != [] && other != path[0]
    ensures CanSetPath(e, path, v)
    ensures Get(SetPath(e, path, v), other) == Get(e, other)
  {
    GetAfterSetPath(e, path, v);
    var s, rest := path[0], path[1..];
    var child := Get(e, s);
    if child.Error? {
      GetPathOfFailed(child.message, rest);
      assert false;
    }
    GetAfterSetPath(child, rest, v);
  }

  /**
    `json[key][s] = v` through a key the dictionary does not have fails
    with that key's not-found error: the getter returns a failed accessor,
    the inner assignment leaves it failed, and writing it back propagates
    the error.
  */
  lemma WriteThroughMissingKey(e: Either, key: string, s: Subscript, v: Either)
    requires HoldsDictionary(e) && key !in e.fragment.d && v.Value?
    ensures CanSetPath(e, [Key(key), s], v)
    ensures SetPath(e, [Key(key), s], v) == Error(KeyNotFound(key))
  {
    assert Parent([Key(key), s]) == [Key(key)];
    SetPathThroughFailedParent(e, [Key(key), s], v);
  }

  /** `json["1"]["2"]["3"] = "success"` on `{"1": {"2": {"3": "value"}}}` replaces exactly the innermost string. */
  lemma ReplaceDeepValue()
    ensures var e := Value(Dictionary(map["1" := Dictionary(map["2" := Dictionary(map["3" := String("value")])])]));
      var path := [Key("1"), Key("2"), Key("3")];
      && CanSetPath(e, path, Value(String("success")))
      && SetPath(e, path, Value(String("success")))
         == Value(Dictionary(map["1" := Dictionary(map["2" := Dictionary(map["3" := String("success")])])]))
  {
    var path := [Key("1"), Key("2"), Key("3")];
    var inner := map["3" := String("value")];
    var middle := map["2" := Dictionary(inner)];
    var e := Value(Dictionary(map["1" := Dictionary(middle)]));
    assert path[1..] == [Key("2"), Key("3")];
    assert path[1..][1..] == [Key("3")];
    assert path[1..][1..][1..] == [];
    assert Get(e, Key("1")) == Value(Dictionary(middle));
    assert Get(Value(Dictionary(middle)), Key("2")) == Value(Dictionary(inner));
    assert inner["3" := String("success")] == map["3" := String("success")];
    var middle' := map["2" := Dictionary(map["3" := String("success")])];
    assert middle["2" := Dictionary(map["3" := String("success")])] == middle';
    assert map["1" := Dictionary(middle)]["1" := Dictionary(middle')] == map["1" := Dictionary(middle')];
  }
}
