# FlexiJSON in Dafny

A verified model of the core of FlexiJSON, a Swift library that puts a typed,
total accessor over a parsed JSON object graph. It models three layers:

- **The value tree** (`Fragment`; `Value` in the oldest copy). It is a six-way
  recursive enum: dictionary, array, string, double, bool and null. Around it
  are:
  - `from`, which validates a heterogeneous native object graph all or nothing;
  - `cast`, which projects the tree back to a native shape;
  - the debug `description`;
  - deep structural equality.

  The native graph is the datatype `NativeGraph.Native`. It has separate Bool
  and Number leaves and an explicit unknown leaf, which stands for any object
  the runtime type probes do not recognise.
- **The accessor `FlexiJSON`.** It holds an `Either` of a tree or an error
  message. On top of it sit:
  - the total get protocol by key and by index, with its fixed message
    templates;
  - the mutating setters, which propagate a failed child's error and ignore
    a receiver that is not the matching container;
  - accessor `==`;
  - the typed projections `dictionary`, `array`, `string`, `int`, `double`,
    `bool`, `null` and `error`.

  The navigation and projection logic is pure functions over `Either`
  (module `Accessors`). The struct with its `mutating` setters is the class
  `Accessors.FlexiJSON`. Its methods are proved against those functions.
  Swift's chained subscript assignment `json["1"]["2"]["3"] = v` reads each
  level with the getter, assigns into the innermost one and writes every
  level back with the setter. It is modelled in module `Subscripts`.
- **The iteration adapter `generate`** (module `Sequences`):
  - an array-backed accessor yields one accessor per element, in order;
  - a dictionary-backed one yields one single-entry dictionary per entry;
  - anything else yields nothing.

The repository holds the same design twice: the current copy under `Sources/`
and a legacy Swift 2 copy under `FlexiJSON/`.
- `FlexiJSON/FlexiJSON+Fragment.swift` has the same branches as
  `Sources/FlexiJSON+Fragment.swift`, at the same line numbers. It differs
  in Swift 2 spelling: capitalised case names, other argument labels, and
  `AnyObject` where the current copy takes `Any` (`from(anyObject:)`,
  `cast(AnyObject.self)`). The tagged native graph stands for both, so it is
  modelled once, in `Fragments`.
- The legacy accessor in `FlexiJSON/FlexiJSON.swift` has the same get, set,
  `==` and projection logic as the current one. Its key and index
  subscripts carry the setter and getter bodies inline, and its `Either`
  has the cases `Value` and `Error`. It is modelled once, in `Accessors`,
  whose `Either` takes that legacy shape. Its behaviour differs elsewhere:
  - it holds the oldest `Value` tree;
  - it has no `init(fragment:)`; its `init(dictionary:)` and `init(array:)`
    go through the trapping `Value.from`, so an unknown leaf traps instead
    of giving the non-json-object error;
  - its `null` projection casts to `JSONNull`, not `NSNull`.

  The "## Left out" lines on the legacy initialisers and on `Values` say how
  these are covered.
- The oldest `Value` enum in `FlexiJSON/FlexiJSON+Value.swift` has the same
  six cases, so it reuses the `Fragment` datatype. Its `from` is total and
  traps on an unknown leaf; module `Values` models that with the
  precondition that the graph is JSON-shaped.

Modelling choices:
- Numbers are `real`. A native number is either a bool-typed number
  (`objCType == "c"`), which becomes `NBool`, or any other number, which
  becomes `NNumber`.
- Swift dictionaries iterate in an unspecified order. The loops that fill a
  dictionary pick the next key with `:|`; `generate` takes the iteration
  order as a parameter, which must list the dictionary's keys once each.
- The library's rendering of doubles, arrays and dictionaries in
  `description` is a function parameter.

## Model

| member | source | states |
|---|---|---|
| Fragments.Embed | Sources/FlexiJSON+Fragment.swift:98-108 | the native object a tree stands for is always a JSON-shaped graph |
| Fragments.From | Sources/FlexiJSON+Fragment.swift:37-72 | conversion succeeds exactly on JSON-shaped graphs (no unknown leaf anywhere), and then yields the tree whose native embedding is the input |
| Fragments.FromDictionary | Sources/FlexiJSON+Fragment.swift:52-61 | the loop that fills `result` entry by entry, returning nil at the first value that fails, computes the same result as the recursive conversion of the dictionary |
| Fragments.FromArray | Sources/FlexiJSON+Fragment.swift:63-72 | the loop that appends converted elements, returning nil at the first failure, computes the same result as the recursive conversion of the array |
| Fragments.FromLeaves | Sources/FlexiJSON+Fragment.swift:37-50 | a string maps to `string`, a bool-typed number to `bool`, another number to `double`, null to `null`, and an unrecognised object to nil |
| Fragments.FromArrayPointwise | Sources/FlexiJSON+Fragment.swift:63-72 | an array converts iff every element does; then the length is kept and element i is element i converted |
| Fragments.FromDictionaryPointwise | Sources/FlexiJSON+Fragment.swift:52-61 | a dictionary converts iff every value does; then it has exactly the input's keys, each value converted |
| Fragments.UnknownValueFailsDictionary | Sources/FlexiJSON+Fragment.swift:52-61 | one unrecognised value anywhere in a dictionary makes the whole dictionary convert to nil |
| Fragments.UnknownElementFailsArray | Sources/FlexiJSON+Fragment.swift:63-72 | one unrecognised element anywhere in an array makes the whole array convert to nil |
| Fragments.FromEmbed | Sources/FlexiJSON+Fragment.swift:37-72 | converting the native embedding of any tree gives that tree back |
| Fragments.Cast | Sources/FlexiJSON+Fragment.swift:81-108 | a cast succeeds exactly when the requested shape (or Any) fits the tree's native form, and then yields that native form, containers cast child by child |
| Fragments.JsonDictionary | Sources/FlexiJSON+Fragment.swift:98-104 | the loop that casts every value to Any and stores it yields a dictionary with the input's keys, each value in native form |
| Fragments.CastSucceedsOnlyForOwnShape | Sources/FlexiJSON+Fragment.swift:81-96 | every variant casts to its own type and to Any, and to no other type |
| Fragments.CastScalars | Sources/FlexiJSON+Fragment.swift:81-96 | string, double and bool cast to the value they hold, and null casts to NSNull |
| Fragments.CastContainers | Sources/FlexiJSON+Fragment.swift:98-108 | a dictionary casts to a native dictionary with the same keys, and an array to a native array of the same length and order, each child cast to Any |
| Fragments.FromCastRoundTrip | Sources/FlexiJSON+Fragment.swift:37-108 | converting a tree's cast to Any gives the tree back |
| Fragments.CastFromRoundTrip | Sources/FlexiJSON+Fragment.swift:37-108 | casting a converted JSON-shaped graph back to Any gives the graph back |
| Fragments.Description | Sources/FlexiJSON+Fragment.swift:114-129 | `description`, with the library's rendering passed in; its contract is carried by `Fragments.DescriptionOfStringIsRaw` |
| Fragments.DescriptionOfStringIsRaw | Sources/FlexiJSON+Fragment.swift:114-129 | a string describes as itself, unquoted, and null as "null", so the string "null" and the null value describe alike |
| Fragments.DictEquals | Sources/FlexiJSON+Fragment.swift:132-140 | the private dictionary `==`; `Fragments.DictEqualsIsMapEquality` proves it is map equality |
| Fragments.Equals | Sources/FlexiJSON+Fragment.swift:142-159 | fragment `==` holds only between trees of the same variant; `Fragments.EqualsIsStructural` proves it is exactly tree identity |
| Fragments.EqualsIsReflexive | Sources/FlexiJSON+Fragment.swift:142-159 | every tree equals itself |
| Fragments.EqualsIsStructural | Sources/FlexiJSON+Fragment.swift:132-159 | deep `==` holds exactly when the two trees are identical, in both directions |
| Fragments.DictEqualsIsMapEquality | Sources/FlexiJSON+Fragment.swift:132-140 | dictionary `==` (equal counts, each left key equal on the right) holds exactly when the mappings are equal, whatever the key order |
| Fragments.IndependentConversionsCompareEqual | FlexiJSONTests/FlexiJSON+FragmentTests.swift:51-53 | two trees converted independently from equal graphs compare equal |
| Fragments.CrossVariantUnequal | Sources/FlexiJSON+Fragment.swift:142-159 | trees of different variants are never equal, and null equals null |
| Fragments.OneLeafDiffers | Sources/FlexiJSON+Fragment.swift:152-153 | replacing one element of an array by a different tree makes the arrays unequal |
| Values.From | FlexiJSON/FlexiJSON+Value.swift:47-72 | on a JSON-shaped graph the total conversion yields the tree whose embedding is the input |
| Values.FromDictionary | FlexiJSON/FlexiJSON+Value.swift:62-68 | the loop that stores every converted value under its key computes the recursive conversion |
| Values.FromDictionaryPointwise | FlexiJSON/FlexiJSON+Value.swift:62-68 | the result is a dictionary with exactly the input's keys, each value converted |
| Values.FromArrayPointwise | FlexiJSON/FlexiJSON+Value.swift:70-72 | the result is an array of the same length whose element i is element i converted |
| Values.AgreesWithFragmentFrom | FlexiJSON/FlexiJSON+Value.swift:47-60 | the oldest conversion traps exactly where the current one returns nil, and elsewhere both give the same tree |
| Values.CastOfScalars | FlexiJSON/FlexiJSON+Value.swift:81-96 | null casts to the JSONNull shape and to Any only; every other scalar casts only to its own type or Any |
| Decimal.NatToString | Sources/FlexiJSON.swift:137 | the decimal rendering of a natural number is a non-empty string of digits without leading zeros (it starts with '0' only for zero) |
| Decimal.IntToString | Sources/FlexiJSON.swift:137 | the interpolation `"\(index)"`; `Decimal.IntToStringRoundTrip` and `Decimal.IntToStringInjective` carry its contract |
| Decimal.ParseNatToString | Sources/FlexiJSON.swift:137 | parsing the digits of a natural number gives it back |
| Decimal.IntToStringRoundTrip | Sources/FlexiJSON.swift:137 | parsing the interpolated rendering of an index gives the index back |
| Decimal.IntToStringInjective | Sources/FlexiJSON.swift:137 | different indices render differently |
| Accessors.Either.ValueOrNil | FlexiJSON/FlexiJSON.swift:85-90 | `value` is non-nil exactly for the tree case, and then it is the tree |
| Accessors.Either.ErrorOrNil | FlexiJSON/FlexiJSON.swift:92-97 | `error` is non-nil exactly for the error case, and then it is the message |
| Accessors.EitherHasOneProjection | FlexiJSON/FlexiJSON.swift:81-98 | exactly one of `value` and `error` is non-nil: `value` for a tree, `error` for a message |
| Accessors.KeyNotFound | Sources/FlexiJSON.swift:127 | the message "Key '<key>' was not found."; `Accessors.KeyNotFoundNamesKey` carries its contract |
| Accessors.IndexOutOfBounds | Sources/FlexiJSON.swift:137 | the message "Index '<index>' is out of bounds."; `Accessors.IndexOutOfBoundsNamesIndex` carries its contract |
| Accessors.KeyNotFoundNamesKey | Sources/FlexiJSON.swift:124-130 | the key-not-found message determines the key |
| Accessors.IndexOutOfBoundsNamesIndex | Sources/FlexiJSON.swift:136-138 | the out-of-bounds message determines the index |
| Accessors.Init | Sources/FlexiJSON.swift:70-76 | a nil fragment gives the error "Initialised FlexiJSON with a non json object.", and a present fragment is held |
| Accessors.InitFromGraph | Sources/FlexiJSON.swift:38-76 | an accessor built from a native graph holds a tree exactly when the graph is JSON-shaped, that tree embeds back to the graph, and otherwise it carries the non-json-object error |
| Accessors.GetKey | Sources/FlexiJSON.swift:124-130 | the getter gives the value iff the accessor holds a dictionary with the key, and otherwise (a failed accessor included) "Key '<key>' was not found." |
| Accessors.GetIndexAsWritten | Sources/FlexiJSON.swift:132-140 | the guard `index < count` as written lets exactly the negative indices of an array receiver through to `a[index]`, which traps |
| Accessors.NegativeIndexTraps | Sources/FlexiJSON.swift:136-139 | index -1 of a one-element array traps |
| Accessors.GetIndex | Sources/FlexiJSON.swift:132-140 | the element iff the accessor holds an array and the index is in range; "Index '<i>' is out of bounds." for any other index of an array; "Attempted to access a nonexistant array." for any other accessor |
| Accessors.GetIndexAgreesWhereNoTrap | Sources/FlexiJSON.swift:132-140 | the code as written traps exactly where `CanGetIndex` fails (a negative index of a held array), and everywhere else returns what the corrected getter returns |
| Accessors.SetKey | Sources/FlexiJSON.swift:100-110 | a failed child's error replaces the receiver; a held child on a dictionary adds its key, reads back as the child and leaves every other key reading the same; any other receiver is unchanged |
| Accessors.SetIndex | Sources/FlexiJSON.swift:112-122 | a failed child's error replaces the receiver; a held child on an array keeps the length, reads back at the index and leaves every other index reading the same; any other receiver is unchanged |
| Accessors.FailureIsSticky | Sources/FlexiJSON.swift:100-122 | a failed accessor stays failed under both setters, and keeps its own message when a held child is assigned |
| Accessors.Equals | Sources/FlexiJSON.swift:147-156 | accessor `==` never holds between a tree and a message; `Accessors.EqualsIsIdentity` proves it is exactly state identity |
| Accessors.EqualsIsIdentity | Sources/FlexiJSON.swift:147-156 | accessor `==` holds exactly for equal trees or identical messages; a tree never equals a message |
| Accessors.AsDictionary | Sources/FlexiJSON.swift:161-163 | non-nil iff a dictionary is held; then it has the same keys, each value in native form |
| Accessors.AsArray | Sources/FlexiJSON.swift:165-167 | non-nil iff an array is held; then it has the same length and order, each element in native form |
| Accessors.AsString | Sources/FlexiJSON.swift:169-171 | non-nil iff a string is held, and then it is that string |
| Accessors.TruncateTowardZero | Sources/FlexiJSON.swift:175 | the integer conversion of a double truncates toward zero |
| Accessors.AsInt | Sources/FlexiJSON.swift:173-178 | non-nil iff a double is held, and then it is the double truncated toward zero |
| Accessors.AsIntOfInt | Sources/FlexiJSON.swift:50-52 | an accessor built with `init(int:)` gives its integer back |
| Accessors.AsDouble | Sources/FlexiJSON.swift:180-182 | non-nil iff a double is held, and then it is that double |
| Accessors.AsBool | Sources/FlexiJSON.swift:184-186 | non-nil iff a bool is held, and then it is that bool |
| Accessors.AsNull | Sources/FlexiJSON.swift:188-193 | non-nil exactly when null is held |
| Accessors.ErrorMessage | Sources/FlexiJSON.swift:195-197 | non-nil exactly for a failed accessor, and then it is its message |
| Accessors.FailedProjectsNothing | FlexiJSON/FlexiJSON.swift:167-200 | every typed projection of a failed accessor is nil, and `error` is its message |
| Accessors.FlexiJSON.constructor | Sources/FlexiJSON.swift:70-76 | `init(fragment:)` stores the held fragment, or the non-json-object error for nil |
| Accessors.FlexiJSON.FromError | Sources/FlexiJSON.swift:66-68 | `init(error:)` stores the message |
| Accessors.FlexiJSON.FromDictionary | Sources/FlexiJSON.swift:38-40 | `init(dictionary:)` stores the validated dictionary, or the non-json-object error |
| Accessors.FlexiJSON.FromArray | Sources/FlexiJSON.swift:42-44 | `init(array:)` stores the validated array, or the non-json-object error |
| Accessors.FlexiJSON.FromString | Sources/FlexiJSON.swift:46-48 | `init(string:)` holds the string |
| Accessors.FlexiJSON.FromInt | Sources/FlexiJSON.swift:50-52 | `init(int:)` holds the integer as a double |
| Accessors.FlexiJSON.FromDouble | Sources/FlexiJSON.swift:54-56 | `init(double:)` holds the double |
| Accessors.FlexiJSON.FromBool | Sources/FlexiJSON.swift:58-60 | `init(bool:)` holds the bool |
| Accessors.FlexiJSON.FromNull | Sources/FlexiJSON.swift:62-64 | `init(null:)` holds null |
| Accessors.FlexiJSON.Get | Sources/FlexiJSON.swift:124-130 | the key getter returns a new accessor in the state `GetKey` gives |
| Accessors.FlexiJSON.GetAt | Sources/FlexiJSON.swift:132-140 | for every index the getter as written accepts without trapping (`CanGetIndex`), it returns a new accessor in the state the code as written returns, which is the state `GetIndex` gives |
| Accessors.FlexiJSON.Set | Sources/FlexiJSON.swift:100-110 | the mutating key setter leaves `either` in the state `SetKey` gives |
| Accessors.FlexiJSON.SetAt | Sources/FlexiJSON.swift:112-122 | the mutating index setter leaves `either` in the state `SetIndex` gives, for an index the unchecked `a[index] =` accepts |
| Sequences.ArrayToFlexiJSON | FlexiJSON/FlexiJSON+SequenceType.swift:37-39 | an element yields a held accessor exactly when it is JSON-shaped, and then one holding that element's tree |
| Sequences.DictionaryToFlexiJSON | FlexiJSON/FlexiJSON+SequenceType.swift:41-43 | an entry yields a held accessor exactly when its value is JSON-shaped, and then one holding a dictionary whose only key is the entry's key |
| Sequences.Generate | FlexiJSON/FlexiJSON+SequenceType.swift:28-35 | an array yields one item per element, a dictionary one item per key of the iteration order, anything else nothing; the lemmas below give the items themselves |
| Sequences.EnumerationSize | FlexiJSON/FlexiJSON+SequenceType.swift:31-32 | an iteration order of a dictionary is exactly as long as the dictionary has entries |
| Sequences.GenerateArray | FlexiJSON/FlexiJSON+SequenceType.swift:29-30 | an array-backed accessor yields exactly one accessor per element, and item i holds element i |
| Sequences.DictionaryItem | FlexiJSON/FlexiJSON+SequenceType.swift:41-43 | an entry is yielded as the one-entry dictionary `{key: value}` |
| Sequences.GenerateDictionaryItems | FlexiJSON/FlexiJSON+SequenceType.swift:31-43 | item i of a dictionary-backed accessor is the one-entry dictionary of the i-th key in iteration order |
| Sequences.GenerateDictionary | FlexiJSON/FlexiJSON+SequenceType.swift:31-32 | a dictionary-backed accessor yields exactly one item per entry, each a one-entry dictionary, and every entry is yielded |
| Sequences.GenerateNothing | FlexiJSON/FlexiJSON+SequenceType.swift:28-35 | a scalar or failed accessor, an empty array and an empty dictionary yield nothing |
| Subscripts.Get | Sources/FlexiJSON.swift:82-98 | the subscript getters, by key or by index; `Subscripts.CanGetIsNoTrap` and the chain lemmas carry their contract |
| Subscripts.Set | Sources/FlexiJSON.swift:82-98 | the subscript setters, by key or by index; their contracts are those of `Accessors.SetKey` and `Accessors.SetIndex` |
| Subscripts.GetPath | Sources/FlexiJSON.swift:82-98 | a chained read; `Subscripts.GetPathOfFailed` and `Subscripts.ReadableChainDoesNotTrap` carry its contract |
| Subscripts.SetPath | Sources/FlexiJSON.swift:82-122 | a chained assignment, read level by level and written back; `Subscripts.GetAfterSetPath` and the lemmas below carry its contract |
| Subscripts.CanGetIsNoTrap | Sources/FlexiJSON.swift:132-140 | a subscript getter does not trap exactly when the index getter as written returns, and then both give the same accessor |
| Subscripts.GetPathOfFailed | Sources/FlexiJSON.swift:82-98 | every chained read through a failed accessor fails, and none of its getters traps |
| Subscripts.ReadableChainDoesNotTrap | Sources/FlexiJSON.swift:82-140 | a chain that reads to a held accessor has no trapping getter |
| Subscripts.CanSetPathNeedsReadableParent | Sources/FlexiJSON.swift:82-140 | a chained assignment traps whenever reading the chain up to the assigned position traps, since the getters run before any setter |
| Subscripts.NegativeIndexInChainTraps | Sources/FlexiJSON.swift:136-139 | `json[-1]["x"] = …` on an array traps in the getter of `json[-1]`, whatever is assigned |
| Subscripts.SetPathPropagatesError | Sources/FlexiJSON.swift:82-122 | an error assigned along a chain whose reads do not trap causes no trap in any setter, and becomes the whole accessor's error |
| Subscripts.SetPathThroughFailedParent | Sources/FlexiJSON.swift:82-122 | when the parent of the assigned position reads, without trapping, to a failed accessor, the assignment is lost and the whole accessor takes the parent's error |
| Subscripts.SetPathOnFailed | Sources/FlexiJSON.swift:82-122 | a chained assignment into a failed accessor never traps and leaves it failed |
| Subscripts.GetAfterSetPath | Sources/FlexiJSON.swift:82-122 | along a readable chain, assigning a held accessor never traps, and reading the chain back gives exactly the assigned accessor |
| Subscripts.SetPathKeepsSiblings | Sources/FlexiJSON.swift:82-122 | a chained assignment along a readable chain leaves every other first-level subscript reading the same |
| Subscripts.WriteThroughMissingKey | Sources/FlexiJSON.swift:82-130 | `json[key][s] = v` through a key the dictionary lacks makes the accessor fail with that key's not-found message |
| Subscripts.ReplaceDeepValue | FlexiJSONTests/FlexiJSONTests.swift:59-64 | assigning "success" at `["1"]["2"]["3"]` of `{"1": {"2": {"3": "value"}}}` replaces exactly the innermost string |

## Left out

- The JSON codec in `Sources/FlexiJSON+ObjC.swift` (`init(data:)`, `init(jsonString:)`, `data`, `jsonString`) is not part of this model. It is a thin wrapper over `NSJSONSerialization`, a foreign codec.
- Runtime type probing is replaced by the tagged `Native` datatype. This covers the `as?` bridging of `Any`/`AnyObject` and the `objCType == "c"` test that tells a bool-typed `NSNumber` apart.
- Numbers are mathematical reals, not IEEE doubles. NaN, infinities, rounding, and the precision of `Double(int)` beyond 2^53 are not modelled.
- AsInt: `Int64(double)` traps on a value outside the 64-bit range; the model truncates any real without bound.
- Strings are sequences of characters. Swift's `String` compares by Unicode canonical equivalence (`"\u{E9}" == "e\u{301}"`), in `==` and in dictionary keys. The model compares character by character. So two canonically equivalent but different keys are one entry in Swift and two in the model. This affects `Accessors.GetKey`, `Accessors.SetKey` (whose new key set is the old one plus `key`), `Fragments.Equals`, `Fragments.DictEquals`, `Accessors.Equals` and `Accessors.KeyNotFoundNamesKey`.
- Description: the rendering of doubles, arrays and dictionaries belongs to Swift's standard library and is a function parameter; only the string, bool and null cases are stated.
- Accessors.SetIndex and Accessors.FlexiJSON.SetAt: `a[index] = …` is written without a bounds check and traps on an index out of range. The model makes an in-range index a precondition (`CanSetIndex`) when a held child is assigned into an array, rather than modelling the trap. An out-of-range write with a held child is never silently dropped: Swift traps on it. The model follows the code here, not a reading in which such writes are ignored.
- Accessors.FlexiJSON.GetAt and Subscripts.CanSetPath: the index getter as written traps on a negative index of a held array. The trap is a precondition (`CanGetIndex`, and `CanGet` at every level of a chain that is read before its last step), and the case is listed under "## Findings". Where the getter does not trap, the code as written and the corrected `Accessors.GetIndex` agree (`Accessors.GetIndexAgreesWhereNoTrap`). A chained read `Subscripts.GetPath` itself is total and uses the corrected getter; `Subscripts.CanGetPath` says when the code as written reads the same chain without trapping.
- The forced unwrap in `jsonArray` (`$0.cast(Any.self)!`) can never fail on a tree. The model takes the value directly and proves elsewhere that the cast to Any always succeeds.
- Values: the Swift 2 bridging of `JSONNull()` (the empty tuple) to `AnyObject` in the oldest `cast` of a null nested inside a container is not modelled; nested null is treated like any other child.
- Values: the oldest `jsonDictionary` and `jsonArray` are the same code as the current ones and are modelled once, in `Fragments.Cast` and `Fragments.JsonDictionary`.
- The legacy `init(value:)` stores the tree without validation; it is `Accessors.Init` applied to a present tree. The legacy `init(dictionary:)` composes it with `Values.From`; `Values.AgreesWithFragmentFrom` relates that to the current path.
- The `Either` used by `Sources/FlexiJSON.swift` is defined in a file that is not part of this model; its shape is taken from the legacy `Either` at `FlexiJSON/FlexiJSON.swift:81-98`.
- Struct value semantics: getters return a new `FlexiJSON` object (`fresh`), and setters copy the assigned accessor's state, so no aliasing arises. Chained subscripts are modelled on values in `Subscripts`, not through the class.
- Sequences.Generate: `FlexiJSON/FlexiJSON+SequenceType.swift` calls `FlexiJSON(fragment: .from(…))`, an initialiser of the current accessor. The model uses that initialiser (`Accessors.Init` of `Fragments.From`). `AnyGenerator` laziness is not modelled; the function returns the whole sequence.
- The playground (`FlexiJSON.playground/Contents.swift`) is a demo. The literal-convertible conveniences have no implementation in the source. Neither is modelled.

## Findings

| source | as written | input that shows it | evidently intended | confidence | as-written member | corrected member |
|---|---|---|---|---|---|---|
| Sources/FlexiJSON.swift:136-139 | `guard index < a.count` is the only bounds check in `get(atIndex:)`, so a negative index reaches `a[index]` and traps (the same guard is at FlexiJSON/FlexiJSON.swift:141-144) | `FlexiJSON(array: ["some"])[-1]` | a negative index gives the error "Index '-1' is out of bounds." like any other index outside `[0, count)` | not executed | Accessors.GetIndexAsWritten, Accessors.NegativeIndexTraps | Accessors.GetIndex |
