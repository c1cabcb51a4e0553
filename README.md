# A verified model of a Kotlin JSON library and its URL router

The library builds JSON documents in memory, serialises them, walks them
with visitors, derives new documents with `filter`/`map`, infers documents
from host values, and routes HTTP GET requests to annotated controller
functions. This Dafny project models the parts of it that compute, and
proves what they promise.

The modules follow the Kotlin sources:

- `JsonValues` (`json_values.dfy`) models the serialisable `JValue` hierarchy (`JValue.kt`) and the Map-based `JObject` (`JObject.kt`):
  - string escaping, which escapes `\`, `"`, backspace, form feed, `\n`, `\r` and `\t`, and copies every other character, including the other control characters;
  - compact `toJson`;
  - key escaping;
  - `size`, `get`, `plus(pair)` and `plus(other)`.

  An object is an ordered sequence of (key, value) entries. For a `Map` the keys are distinct and keep insertion order, as a `LinkedHashMap` does.
- `Elements` (`elements.dfy`) models the `JElement` tree (`JElement.kt`, `JProperty.kt`, `JArray.kt`, `JString.kt`, `JNumber.kt`, `JBoolean.kt`, `JNull.kt`):
  - Nodes live in an arena: a node is an index, and `parent` is an index too.
  - The class `Arena` holds the node sequence, and its methods are the element constructors.
  - `JProperty`'s `init` writes the `parent` link of its value.
  - `Depth` is the `depth` getter.
  - `Equals` is the data-class equality, with `JNull.equals` in it.
  - `Trace` is the order in which `accept` calls the visitor, with the visitor's descent answers as a parameter.
- `KeyRules` (`key_rules.dfy`) holds the key rules that both key validators apply to one object: blank keys, and keys already seen.
- `Visitors` (`visitors.dfy`) models the visitors in `JVisitor.kt`:
  - the default descent answers;
  - `ArrayTypeValidator`, which clears a `valid` flag;
  - `KeyValidatorVisitor`, which appends to an error list.

  Each visitor is a class whose methods update its fields, proved to leave the state a fold over `Trace` would leave.
- `Validators` (`validators.dfy`) models `validators/ArrayTypeValidator.kt` and `validators/KeyValidator.kt`. Both append problems to a list; `result()` renders the list.
- `Extensions` (`extensions.dfy`) models `JObject.filter`, `JArray.filter` and `JArray.map`.
- `Indentation` (`node_ident.dfy`) models `nodeIdent`, the tab prefix.
- `Inference` (`inference.dfy`) models `toJson(value)`. Host values are an explicit datatype with one alternative per branch of the source's `when`. Any other object carries its public properties as an ordered (name, value) list.
- `Routes` (`route.dfy`) models `Route.match` and `Route.extractPathVariables`.
- `Router` (`router.dfy`) models:
  - registering controllers (template joining, `{name}` variables, `@Param` names);
  - `parseQueryParams`;
  - `handleRequest` up to the reflective call: the method check, the first matching route, its path variables and the query map.
- `Strings`, `Sequences` and `Wrappers` hold the Kotlin standard-library calls the sources use (`split`, `trim`, `joinToString`, `repeat`, `isBlank`, `Int.toString`) and `Option`/`Result`.

**Where the sources disagree, each file is modelled as written:**

- `Route.kt` treats a segment `(name)` as a path variable, but `Router.kt` collects `{name}` variables from its templates. A template registered as `users/{id}` therefore matches only the literal segment `{id}`.
- `Route.kt` declares `Route(path, method: Method, instance, pathVariables: List<Int>, queryParams)` (lines 7-13), but `Router.kt` builds routes with `pathTemplate =`, `function =` and a `List<String>` of names (lines 63-69), and calls `route.function.call` (line 96). As written, the two files do not compile together. The model follows `Router.kt`'s usage: a route has a template, an opaque handler, and the variable and parameter names.
- `JValue.kt` announces a serialisable array but declares none, and the `JArray.kt` class is the `JElement` one, which has no `toJson`. The model supplies the array value `JsonValues.Json.JArray(items)`, which `Validators` reads, and renders it `[` + the items joined by `, ` + `]`. This follows the repository's older `src/Version (Gabriel)/JsonData.kt:31-32` and the text `TestSerialization.kt:26` expects; `JsonValues.ObjectSerializationExample` relies on it.
- The visitors in `JVisitor.kt` and `Extensions.kt` read an object as a list of `JProperty`, while `JObject.kt` is Map-based. The `Elements` world uses the list, and `JsonValues` uses entries with distinct keys.

## Model

| member | source | states |
|---|---|---|
| JsonValues.StringToJson | src/main/kotlin/json/model/JValue.kt:29-46 | the output is the payload between two quotes, each character written by its escape, and its length is 2 + the payload length + the number of escaped characters |
| JsonValues.EscapeString | src/main/kotlin/json/model/JValue.kt:32-44 | the escaped body is one character longer than the payload per escaped character |
| JsonValues.EscapeStringRoundTrip | src/main/kotlin/json/model/JValue.kt:34-43 | reading the escapes back yields the original payload, so no two payloads are written alike |
| JsonValues.EscapeStringIdentity | src/main/kotlin/json/model/JValue.kt:42 | a payload is written unchanged exactly when it holds none of `\`, `"`, backspace, form feed, `\n`, `\r`, `\t` (other control characters are copied) |
| JsonValues.ControlCharacterWrittenRaw | src/main/kotlin/json/model/JValue.kt:34-42 | a control character below U+0020 other than backspace, form feed, `\n`, `\r` and `\t` is written raw between the quotes, so the output is not valid JSON text, contrary to the promise at `JValue.kt:19` |
| JsonValues.ControlCharacterExample | src/main/kotlin/json/model/JValue.kt:34-42 | the payload U+0001 serialises to a quote, the raw U+0001 and a quote |
| JsonValues.EscapePlainText | src/main/kotlin/json/model/JValue.kt:42 | text without those seven characters is copied unchanged |
| JsonValues.CountEscapedZero | src/main/kotlin/json/model/JValue.kt:34-42 | no character is escaped exactly when none of the seven occurs |
| JsonValues.EscapeStringAppend | src/main/kotlin/json/model/JValue.kt:32-44 | escaping works character by character: escaping a concatenation concatenates the escapes |
| JsonValues.StringEscapingExample | src/test/kotlin/json/TestSerialization.kt:10-12 | a backslash, a space and a quote between plain text (as in `hello \ " world`) are written `\\ \"`, the rest copied, all between quotes |
| JsonValues.ScalarRendering | src/main/kotlin/json/model/JValue.kt:50-61 | a boolean is written `true` exactly when it is true and `false` exactly when false, `null` as `null`, and a number's text reads back as the number |
| JsonValues.Escape | src/main/kotlin/json/model/JObject.kt:22-31 | the loop writes every key character, doubling backslashes and escaping quotes |
| JsonValues.EscapeKeyRoundTrip | src/main/kotlin/json/model/JObject.kt:22-31 | escaped keys read back as the key, so distinct keys are never written alike |
| JsonValues.EscapeKeyAgreesOnPlainText | src/main/kotlin/json/model/JObject.kt:25-29 | on text whose only special characters are `\` and `"`, key escaping and string escaping agree |
| JsonValues.ObjectRendering | src/main/kotlin/json/model/JObject.kt:15-19 | an object is written between `{` and `}`; it is `{}` exactly when it has no entry, and otherwise a quoted key follows `{` |
| JsonValues.ObjectSerializationExample | src/test/kotlin/json/TestSerialization.kt:16-26 | an object of a string, a number, a boolean and a two-string array under plain keys is written as `"key": value` entries in insertion order, separated by `, ` |
| JsonValues.Keys | src/main/kotlin/json/model/JObject.kt:16 | the keys of the entries, one per entry, in order |
| JsonValues.Lookup | src/main/kotlin/json/model/JObject.kt:39 | `None` exactly when no entry has the key; otherwise the value of the first entry with that key |
| JsonValues.LookupPut | src/main/kotlin/json/model/JObject.kt:47 | after `put(key, value)`, `key` maps to `value` and every other key to its old value |
| JsonValues.PutSize | src/main/kotlin/json/model/JObject.kt:47 | `put` adds an entry exactly when the key was absent |
| JsonValues.PutKeySet | src/main/kotlin/json/model/JObject.kt:47 | `put` adds its key to the key set and no other |
| JsonValues.PutUnique | src/main/kotlin/json/model/JObject.kt:47 | `put` keeps keys distinct |
| JsonValues.LookupPutAll | src/main/kotlin/json/model/JObject.kt:54 | after `putAll(other)`, a key of `other` maps to its value there and any other key keeps its value |
| JsonValues.PutAllKeySet | src/main/kotlin/json/model/JObject.kt:54 | `putAll` gives the union of the key sets and keeps keys distinct |
| JsonValues.PlusGet | src/main/kotlin/json/model/JObject.kt:46-47 | `obj + (k to v)` maps `k` to `v` and leaves every other key's value as it was |
| JsonValues.PlusSize | src/main/kotlin/json/model/JObject.kt:36-47 | `obj + (k to v)` grows `size` by one exactly when `k` was absent, and keeps keys distinct |
| JsonValues.MergeGet | src/main/kotlin/json/model/JObject.kt:53-54 | `obj + other` has the union of the keys, and a clashing key takes `other`'s value |
| JsonValues.UniqueKeysSize | src/main/kotlin/json/model/JObject.kt:36 | a Map-based object has exactly as many entries as distinct keys |
| JsonValues.ToJson | src/main/kotlin/json/model/JValue.kt:29-61 | definition of `toJson` for every value (an object as `JObject.kt:15-19` writes it); stated by `StringToJson`, `ScalarRendering`, `ObjectRendering` and `ObjectSerializationExample` |
| JsonValues.EscapeChar | src/main/kotlin/json/model/JValue.kt:34-42 | definition: the `when` on one payload character; stated by `EscapeStringRoundTrip` and `EscapeStringIdentity` |
| JsonValues.EscapeKey | src/main/kotlin/json/model/JObject.kt:22-31 | definition of `escape(raw)`; stated by `Escape`, `EscapeKeyRoundTrip` and `EscapeKeyAppend` |
| JsonValues.EscapeKeyAppend | src/main/kotlin/json/model/JObject.kt:24-30 | key escaping works character by character: escaping a concatenation concatenates the escapes |
| JsonValues.PlainWritten | src/main/kotlin/json/model/JValue.kt:42 | text without any of the seven escaped characters is written unchanged by both the string and the key escaper |
| JsonValues.FieldToJson | src/main/kotlin/json/model/JObject.kt:18 | definition of one entry's text `"key": value`; stated by `ObjectSerializationExample` |
| JsonValues.FieldsToJson | src/main/kotlin/json/model/JObject.kt:16-19 | one text per entry, in order, text `k` being that of entry `k` |
| JsonValues.ItemsToJson | src/test/kotlin/json/TestSerialization.kt:26 | one text per array item, in order, text `k` being that of item `k` |
| JsonValues.KindOf | src/main/kotlin/json/visitor/validators/ArrayTypeValidator.kt:26 | definition: the runtime class of a value (`::class`); used by `Validators.SameClass` |
| JsonValues.UniqueKeys | src/main/kotlin/json/model/JObject.kt:10 | definition: the keys of a `Map` are distinct; kept by `PutUnique` and `PutAllKeySet` |
| JsonValues.Size | src/main/kotlin/json/model/JObject.kt:36 | definition of `size`; stated by `PlusSize` and `UniqueKeysSize` |
| JsonValues.Get | src/main/kotlin/json/model/JObject.kt:39 | definition of `get` as `Lookup`; stated by `PlusGet` and `MergeGet` |
| JsonValues.Put | src/main/kotlin/json/model/JObject.kt:47 | definition of `LinkedHashMap` insertion (replace in place, else append); stated by `LookupPut`, `PutSize`, `PutKeySet` and `PutUnique` |
| JsonValues.PutAll | src/main/kotlin/json/model/JObject.kt:54 | definition of `fields + other.fields` as successive puts; stated by `LookupPutAll` and `PutAllKeySet` |
| JsonValues.Plus | src/main/kotlin/json/model/JObject.kt:46-47 | the result is an object (`fields + pair`); its contents are stated by `PlusGet` and `PlusSize` |
| JsonValues.Merge | src/main/kotlin/json/model/JObject.kt:53-54 | the result is an object (`fields + other.fields`); its contents are stated by `MergeGet` |
| Elements.Depth | src/main/kotlin/json/model/JElement.kt:12-13 | `depth` is never negative |
| Elements.DepthRecurrence | src/main/kotlin/json/model/JElement.kt:13 | a root has depth 0; a node under a property has the property's depth; under any other parent, the parent's depth + 1 |
| Elements.DepthCountsNonPropertyAncestors | src/main/kotlin/json/model/JElement.kt:13 | depth equals the number of strict ancestors that are not properties |
| Elements.Ancestors | src/main/kotlin/json/model/JElement.kt:11 | following `parent` from a node reaches only nodes built after it |
| Elements.ContentOf | src/main/kotlin/json/model/JProperty.kt:10 | a node's value is a `JProperty` exactly when the node is a property |
| Elements.ContentsOf | src/main/kotlin/json/model/JArray.kt:13 | the values of a list of nodes, one per node |
| Elements.ContentsOfAt | src/main/kotlin/json/model/JArray.kt:13 | the value at index `k` is the value of the node at index `k` |
| Elements.EqualsIffSameContent | src/main/kotlin/json/model/JProperty.kt:10 | two nodes are equal exactly when their subtrees have the same value (same key and value for properties, same payload for leaves); parents play no part |
| Elements.ListEqualsIffSameContents | src/main/kotlin/json/model/JArray.kt:13 | two element lists are equal exactly when their values are equal, index by index |
| Elements.NullEquality | src/main/kotlin/json/model/JNull.kt:13 | nothing equals `null`, and a `JNull` equals exactly the other `JNull`s |
| Elements.Equals | src/main/kotlin/json/model/JNull.kt:13 | definition of `equals`: data-class equality of the constructor fields, with `JNull.equals`; stated by `EqualsIffSameContent` and `NullEquality` |
| Elements.ListEquals | src/main/kotlin/json/model/JArray.kt:13 | definition of list equality element by element; stated by `ListEqualsIffSameContents` |
| Elements.PropsOfIffSameContents | src/main/kotlin/json/visitor/JVisitor.kt:128 | two property lists are equal exactly when their values are equal, index by index |
| Elements.Trace | src/main/kotlin/json/visitor/JVisitor.kt:22-27 | `accept` visits the node itself first, then only nodes beneath it |
| Elements.TraceAll | src/main/kotlin/json/model/JArray.kt:29 | accepting children visits only nodes beneath the owner |
| Elements.TraceAllSnoc | src/main/kotlin/json/model/JArray.kt:29 | accepting one more child appends that child's trace |
| Elements.TraceAllVisitsEach | src/main/kotlin/json/model/JArray.kt:29 | every child is visited |
| Elements.LeafTrace | src/main/kotlin/json/model/JString.kt:10-12 | `accept` on a leaf (`JString`, `JNumber`, `JBoolean`, `JNull`) visits that leaf once and nothing else |
| Elements.CompositeTrace | src/main/kotlin/json/model/JArray.kt:27-30 | a composite answering `false` visits only itself; answering `true` its trace is itself followed by `TraceAll` of its children, each child's trace in index order, so every child is visited after it |
| Elements.PropertyTrace | src/main/kotlin/json/model/JProperty.kt:15-18 | a property is visited first, then its value's whole trace, with no descent decision |
| Elements.TraceVisitsRootOnce | src/main/kotlin/json/visitor/JVisitor.kt:22-27 | the node `accept` is called on is visited exactly once |
| Elements.ArrayAccessors | src/main/kotlin/json/model/JArray.kt:16-24 | `size` is the number of elements, `get(i)` is element `i`, and `getElements()` returns the elements |
| Elements.Size | src/main/kotlin/json/model/JArray.kt:16 | definition of `size`; stated by `ArrayAccessors` and `Arena.NewArray` |
| Elements.Get | src/main/kotlin/json/model/JArray.kt:19 | definition of `get(index)`; stated by `ArrayAccessors` and `Arena.NewArray` |
| Elements.GetElements | src/main/kotlin/json/model/JArray.kt:24 | definition of `getElements()`; stated by `ArrayAccessors` and `Arena.NewArray` |
| Elements.WithProperty | src/main/kotlin/json/model/JProperty.kt:11-13 | definition of `JProperty`'s `init` on the arena; stated by `WithPropertyValid` and `WithPropertyEffect` |
| Elements.WithPropertyValid | src/main/kotlin/json/model/JProperty.kt:11-13 | building a property keeps the tree well formed, and every parent link points to the property holding the node |
| Elements.SamePayloadsSameContent | src/main/kotlin/json/model/JProperty.kt:12 | rewriting parent links changes no subtree's value |
| Elements.WithPropertyEffect | src/main/kotlin/json/model/JProperty.kt:11-13 | after `JProperty(key, value)`, every old node keeps its value, the property's value is (key, value), and value and property both have depth 0 |
| Elements.OwnedDepthIsZero | src/main/kotlin/json/model/JElement.kt:11-13 | when every parent link is a property's own, every depth is 0 |
| Elements.Arena.constructor | src/main/kotlin/json/model/JElement.kt:11 | an empty arena |
| Elements.Arena.NewString | src/main/kotlin/json/model/JString.kt:9 | a new parentless node whose value is `JString(text)` |
| Elements.Arena.NewNumber | src/main/kotlin/json/model/JNumber.kt:9 | a new parentless node whose value is `JNumber(number)` |
| Elements.Arena.NewBoolean | src/main/kotlin/json/model/JBoolean.kt:9 | a new parentless node whose value is `JBoolean(flag)` |
| Elements.Arena.NewNull | src/main/kotlin/json/model/JNull.kt:8 | a new parentless node whose value is `JNull` |
| Elements.Arena.NewArray | src/main/kotlin/json/model/JArray.kt:13-24 | a new array with the given elements (`size`, `get` and `getElements` return them) whose parent links stay as they were; so `JArray(old + x)` has size + 1 and `x` last |
| Elements.Arena.NewObject | src/main/kotlin/json/visitor/JVisitor.kt:128 | a new object over the given properties, their parent links unchanged; every old value is kept, and the new node's value is the object of those properties' values, in order |
| Elements.Arena.NewProperty | src/main/kotlin/json/model/JProperty.kt:10-13 | a new property whose value's `parent` is the property; every old value is kept, and value and property have depth 0 |
| KeyRules.KeyFindingsSnoc | src/main/kotlin/json/visitor/JVisitor.kt:128-135 | checking one more key appends what that key alone reports: blank first, then duplicate |
| KeyRules.KeyFindings | src/main/kotlin/json/visitor/JVisitor.kt:127-135 | definition of the per-key checks over one object's keys; stated by `KeyFindingsSnoc`, `KeyFindingsCount`, `KeyFindingsEmptyIff` and `DuplicateReportedIff` |
| KeyRules.KeyFindingsCount | src/main/kotlin/json/visitor/JVisitor.kt:129-134 | the number of reports is the number of blank keys plus the number of repeated occurrences |
| KeyRules.DistinctKeySetSize | src/main/kotlin/json/visitor/validators/KeyValidator.kt:19-26 | distinct keys give as many `seen` entries as keys |
| KeyRules.KeyFindingsEmptyIff | src/main/kotlin/json/visitor/JVisitor.kt:127-135 | nothing is reported exactly when no key is blank and no key repeats |
| KeyRules.DuplicateReportedIff | src/main/kotlin/json/visitor/JVisitor.kt:132-134 | a key is reported as a duplicate exactly when it occurs at least twice |
| KeyRules.BlankAndDuplicateExample | src/test/kotlin/json/TestJVisitor.kt:17-27 | keys `""`, `"k"`, `"k"` give exactly a blank report and a duplicate report for `k` |
| Indentation.NodeIdentShape | src/main/kotlin/json/fn/NodeIdent.kt:20-22 | the prefix holds only tabs; it is empty for a property's value and for a root, and otherwise has `depth` tabs |
| Indentation.NodeIdent | src/main/kotlin/json/fn/NodeIdent.kt:20-22 | definition of `nodeIdent`; stated by `NodeIdentShape` and `BuiltTreesAreFlush` |
| Indentation.BuiltTreesAreFlush | src/main/kotlin/json/fn/NodeIdent.kt:21 | in a tree built by the element constructors every prefix is empty |
| Strings.Repeat | src/main/kotlin/json/fn/NodeIdent.kt:21 | `repeat(n)` has `n` times the length |
| Strings.RepeatCharAt | src/main/kotlin/json/fn/NodeIdent.kt:21 | every character of a repeated character is that character |
| Visitors.DefaultVisitsChildren | src/main/kotlin/json/visitor/JVisitor.kt:49-52 | with the default `true` answers, every element of an array and every property of an object is visited |
| Visitors.KindSetSmallIffSameKind | src/main/kotlin/json/visitor/JVisitor.kt:93-97 | at most one class among the non-null elements exactly when they all have one kind |
| Visitors.KindsAgreeAlongAppend | src/main/kotlin/json/visitor/JVisitor.kt:81 | two traversals in turn agree on kinds exactly when each does |
| Visitors.ValidMeansHomogeneous | src/main/kotlin/json/visitor/JVisitor.kt:83 | `valid` after a traversal means every visited array's non-null elements share one kind |
| Visitors.ArrayTypeValidator.constructor | src/main/kotlin/json/visitor/JVisitor.kt:88 | `valid` starts true |
| Visitors.ArrayTypeValidator.VisitArray | src/main/kotlin/json/visitor/JVisitor.kt:91-100 | `valid` stays true only if it was and the array's kinds agree, so once false it stays false; the answer is always `true` |
| Visitors.ArrayTypeValidator.VisitObject | src/main/kotlin/json/visitor/JVisitor.kt:103 | objects leave `valid` alone and are descended into |
| Visitors.ArrayTypeValidator.Accept | src/main/kotlin/json/visitor/JVisitor.kt:85-104 | after a traversal, `valid` is its old value and the agreement of every array visited |
| Visitors.ArrayTypeValidator.AcceptChildren | src/main/kotlin/json/model/JArray.kt:29 | the same over children accepted in index order |
| Visitors.Render | src/main/kotlin/json/visitor/JVisitor.kt:140 | one message per error, in order |
| Visitors.BlankMessageNamesDepth | src/main/kotlin/json/visitor/JVisitor.kt:130 | a blank-key message starts with its fixed text and reads back as the depth it reports |
| Visitors.Tagged | src/main/kotlin/json/visitor/JVisitor.kt:130-133 | one error per finding, all at the object's depth |
| Visitors.TaggedStep | src/main/kotlin/json/visitor/JVisitor.kt:129-134 | one more key adds a blank-key error when blank, then a duplicate-key error when already seen |
| Visitors.KeyCheckStep | src/main/kotlin/json/visitor/JVisitor.kt:127-135 | `seen.add` fails exactly for a key seen earlier; `seen` stays the set of checked keys; the errors grow by that key's findings |
| Visitors.PerVisit | src/main/kotlin/json/visitor/JVisitor.kt:126-137 | the errors each visit adds, one entry per visit |
| Visitors.ConcatAppend | src/main/kotlin/json/visitor/JVisitor.kt:120 | the error list of two runs is their lists one after the other |
| Visitors.ErrorsAlongAppend | src/main/kotlin/json/visitor/JVisitor.kt:120 | errors only accumulate: two stretches of visits add their errors in turn |
| Visitors.ErrorsAlongSnoc | src/main/kotlin/json/model/JArray.kt:29 | accepting one more child appends the errors along that child's trace |
| Visitors.ErrorsAlongObject | src/main/kotlin/json/visitor/JVisitor.kt:126-137 | an object adds its own key errors, then those of its properties' traces |
| Visitors.ErrorsAlongArray | src/main/kotlin/json/model/JArray.kt:27-30 | an array adds only its elements' errors |
| Visitors.ErrorsAlongProperty | src/main/kotlin/json/model/JProperty.kt:15-18 | a property adds only its value's errors |
| Visitors.ErrorsAlongLeaf | src/main/kotlin/json/visitor/JVisitor.kt:59-69 | a leaf adds no error (the default leaf callbacks change nothing) |
| Visitors.ErrorsAlongHead | src/main/kotlin/json/visitor/JVisitor.kt:126-137 | a node's own errors come first |
| Visitors.ErrorsAlongSingle | src/main/kotlin/json/visitor/JVisitor.kt:126-137 | one visit adds that node's errors |
| Visitors.ConcatEmptyIff | src/main/kotlin/json/visitor/JVisitor.kt:114-115 | no error at all exactly when no visit adds one |
| Visitors.ErrorsAlongEmptyIff | src/main/kotlin/json/visitor/JVisitor.kt:114-115 | an empty result exactly when every visited object has non-blank, distinct keys |
| Visitors.KindSet | src/main/kotlin/json/visitor/JVisitor.kt:93-96 | definition of the set of classes among the non-null elements; stated by `KindSetSmallIffSameKind` |
| Visitors.Message | src/main/kotlin/json/visitor/JVisitor.kt:130-133 | definition of the two error texts; stated by `BlankMessageNamesDepth` and `Render` |
| Visitors.NodeErrors | src/main/kotlin/json/visitor/JVisitor.kt:126-137 | definition of the errors one visit adds (an object's key findings at its depth, nothing for other nodes); stated by `ErrorsAlongObject`, `ErrorsAlongLeaf` and `ErrorsAlongEmptyIff` |
| Visitors.ErrorsAlong | src/main/kotlin/json/visitor/JVisitor.kt:117-141 | definition of the errors along a run of visits; stated by `ErrorsAlongAppend`, `ErrorsAlongSnoc` and `ErrorsAlongEmptyIff` |
| Visitors.KeyValidatorVisitor.constructor | src/main/kotlin/json/visitor/JVisitor.kt:120 | the error list starts empty |
| Visitors.KeyValidatorVisitor.VisitObject | src/main/kotlin/json/visitor/JVisitor.kt:126-137 | the errors grow by exactly the object's key findings, tagged with its depth; the answer is always `true` |
| Visitors.KeyValidatorVisitor.Result | src/main/kotlin/json/visitor/JVisitor.kt:140 | the messages of the errors so far, in order |
| Visitors.KeyValidatorVisitor.Accept | src/main/kotlin/json/visitor/JVisitor.kt:117-141 | a traversal appends the errors of every object it visits, in visit order |
| Visitors.KeyValidatorVisitor.AcceptChildren | src/main/kotlin/json/model/JArray.kt:29 | the same over children accepted in index order |
| Validators.FirstNonNull | src/main/kotlin/json/visitor/validators/ArrayTypeValidator.kt:25 | the index of the first non-null item, every item before it null; `None` exactly when all are null |
| Validators.MismatchesExact | src/main/kotlin/json/visitor/validators/ArrayTypeValidator.kt:28-33 | exactly one problem per non-null item of another class, at its index, in index order |
| Validators.ArrayProblemsEmptyIff | src/main/kotlin/json/visitor/validators/ArrayTypeValidator.kt:25-33 | a visit adds no problem exactly when the non-null items share one class (all-null and empty arrays included) |
| Validators.ArrayProblemsSound | src/main/kotlin/json/visitor/validators/ArrayTypeValidator.kt:25-33 | every problem names a non-null item of another class than the first non-null item, whose class is the expected one |
| Validators.ArrayProblemsExamples | src/test/kotlin/json/TestArrayValidator.kt:12-25 | `[1, "two"]` gets one problem at index 1; `["a", "b", null]` gets none |
| Validators.MixedDetail | src/main/kotlin/json/visitor/validators/ArrayTypeValidator.kt:31 | the detail after the index starts with `:` |
| Validators.MixedMessageNamesIndex | src/main/kotlin/json/visitor/validators/ArrayTypeValidator.kt:30-31 | the reported index reads back from the message |
| Validators.Mismatches | src/main/kotlin/json/visitor/validators/ArrayTypeValidator.kt:28-33 | definition of the `forEachIndexed` loop's problems; stated by `MismatchesExact` |
| Validators.ArrayProblems | src/main/kotlin/json/visitor/validators/ArrayTypeValidator.kt:23-34 | definition of one visit's problems; stated by `ArrayProblemsEmptyIff` and `ArrayProblemsSound` |
| Validators.ClassName | src/main/kotlin/json/visitor/validators/ArrayTypeValidator.kt:31 | definition of the `KClass` text of a value's class |
| Validators.MixedMessage | src/main/kotlin/json/visitor/validators/ArrayTypeValidator.kt:30-31 | definition of the mixed-type text; stated by `MixedMessageNamesIndex` and `MixedDetail` |
| Validators.ArrayTypeValidatorVisitor.constructor | src/main/kotlin/json/visitor/validators/ArrayTypeValidator.kt:21 | no problems at first |
| Validators.ArrayTypeValidatorVisitor.Visit | src/main/kotlin/json/visitor/validators/ArrayTypeValidator.kt:23-34 | the problems grow by exactly the array's mismatches and are never removed |
| Validators.ArrayTypeValidatorVisitor.Result | src/main/kotlin/json/visitor/validators/ArrayTypeValidator.kt:36 | one message per problem, in order |
| Validators.Reported | src/main/kotlin/json/visitor/validators/KeyValidator.kt:22-25 | one problem per finding, each naming the object |
| Validators.KeyCheckStep | src/main/kotlin/json/visitor/validators/KeyValidator.kt:19-27 | `seen.add` fails exactly for a key seen earlier; the problems grow by that key's findings |
| Validators.MapKeysOnlyBlank | src/main/kotlin/json/visitor/validators/KeyValidator.kt:19-26 | over a Map's distinct keys the duplicate branch never fires: one problem per blank key |
| Validators.MapObjectValidIff | src/main/kotlin/json/visitor/validators/KeyValidator.kt:18-28 | a visit adds no problem exactly when no key is blank |
| Validators.BlankKeyExample | src/test/kotlin/json/TestKeyValidator.kt:11-16 | `{"": 1}` is reported once, for its blank key |
| Validators.KeyMessageTellsKind | src/main/kotlin/json/visitor/validators/KeyValidator.kt:22-25 | a message tells a blank key from a repeated one |
| Validators.ObjectProblems | src/main/kotlin/json/visitor/validators/KeyValidator.kt:18-28 | definition of one visit's problems; stated by `MapKeysOnlyBlank` and `MapObjectValidIff` |
| Validators.KeyMessage | src/main/kotlin/json/visitor/validators/KeyValidator.kt:22-25 | definition of the two problem texts; stated by `KeyMessageTellsKind` |
| Validators.KeyValidatorVisitor.constructor | src/main/kotlin/json/visitor/validators/KeyValidator.kt:16 | no problems at first |
| Validators.KeyValidatorVisitor.Visit | src/main/kotlin/json/visitor/validators/KeyValidator.kt:18-28 | the problems grow by exactly the object's key findings and are never removed |
| Validators.KeyValidatorVisitor.Result | src/main/kotlin/json/visitor/validators/KeyValidator.kt:31 | one message per problem, in order |
| Extensions.Filter | src/main/kotlin/json/fn/Extensions.kt:25 | the result is never longer than the input |
| Extensions.Map | src/main/kotlin/json/fn/Extensions.kt:33 | the result is as long as the input |
| Extensions.FilterPicks | src/main/kotlin/json/fn/Extensions.kt:24-25 | the result is the subsequence at increasing indices of exactly the items that pass |
| Extensions.FilterMembers | src/main/kotlin/json/fn/Extensions.kt:15 | an item is in the result exactly when it is in the input and passes |
| Extensions.FilterIdempotent | src/main/kotlin/json/fn/Extensions.kt:24-25 | filtering twice equals filtering once |
| Extensions.FilterKeepsAll | src/main/kotlin/json/fn/Extensions.kt:24-25 | when every item passes, the result is the input |
| Extensions.FilterKeepsNone | src/main/kotlin/json/fn/Extensions.kt:24-25 | when no item passes, the result is empty |
| Extensions.MapAt | src/main/kotlin/json/fn/Extensions.kt:32-33 | item `i` of the result is `transform` of item `i` |
| Extensions.FilterObject | src/main/kotlin/json/fn/Extensions.kt:12-17 | the result is an object (which properties it keeps, and in what order, is stated by `Extensions.FilterObjectOrder`) |
| Extensions.FilterArray | src/main/kotlin/json/fn/Extensions.kt:24-25 | the result is an array |
| Extensions.MapArray | src/main/kotlin/json/fn/Extensions.kt:32-33 | the result is an array |
| Extensions.FilterObjectMembers | src/main/kotlin/json/fn/Extensions.kt:12-17 | a property is kept exactly when it was in the object and its key and value pass |
| Extensions.FilterObjectOrder | src/main/kotlin/json/fn/Extensions.kt:12-17 | property `k` of the result is property `idx[k]` of the object; the indices rise strictly and are exactly those whose key and value pass, so the passing properties are kept in their original order, each occurrence once (repeated keys included) |
| Extensions.FilterArrayOrder | src/main/kotlin/json/fn/Extensions.kt:24-25 | the filtered array holds the passing elements in their order, never more |
| Extensions.MapArrayAt | src/main/kotlin/json/fn/Extensions.kt:32-33 | same length, element `i` is `transform` of element `i` |
| Extensions.FilterMapExamples | src/test/kotlin/json/TestFilterMap.kt:11-29 | filtering out `secret` keeps `id` and `name`; doubling `[1, 2, 3]` gives `[2, 4, 6]` |
| Inference.ToJson | src/main/kotlin/json/fn/Inference.kt:25-43 | a success has the shape of its branch (null, string, number, boolean, enum name, array, object) and is never a bare property; a failure is the map-key error |
| Inference.ItemsToJson | src/main/kotlin/json/fn/Inference.kt:31 | a success has one element per item |
| Inference.EntriesToJson | src/main/kotlin/json/fn/Inference.kt:32-35 | a success has one property per entry; a failure is the map-key error |
| Inference.FieldsToJson | src/main/kotlin/json/fn/Inference.kt:36-42 | a success has one property per public property |
| Inference.ToJsonFailsIff | src/main/kotlin/json/fn/Inference.kt:33 | conversion fails exactly when some map inside the value has a non-`String` key |
| Inference.ItemsFailIff | src/main/kotlin/json/fn/Inference.kt:31 | a list fails exactly when one of its items does |
| Inference.EntriesFailIff | src/main/kotlin/json/fn/Inference.kt:32-35 | a map fails exactly when a key is not a `String` or a value fails |
| Inference.FieldsFailIff | src/main/kotlin/json/fn/Inference.kt:37-41 | an object fails exactly when one of its property values does |
| Inference.ItemsConvertElementwise | src/main/kotlin/json/fn/Inference.kt:31 | element `i` is the conversion of item `i` |
| Inference.EntriesConvertInOrder | src/main/kotlin/json/fn/Inference.kt:32-35 | property `i` is entry `i`'s key with its converted value |
| Inference.FieldsConvertInOrder | src/main/kotlin/json/fn/Inference.kt:37-41 | property `i` is public property `i`'s name with its converted value |
| Inference.ToJsonList | src/main/kotlin/json/fn/Inference.kt:31 | a list becomes an array of the same length, element `i` the conversion of item `i` |
| Inference.ToJsonMap | src/main/kotlin/json/fn/Inference.kt:32-35 | a map with `String` keys becomes an object with one property per entry, in entry order |
| Inference.ToJsonObject | src/main/kotlin/json/fn/Inference.kt:36-42 | any other value becomes an object of its public properties, in order |
| Inference.ToJsonPropertiesInObjects | src/main/kotlin/json/fn/Inference.kt:25-43 | every property of an inferred tree sits directly in an object |
| Inference.InferenceExamples | src/test/kotlin/json/TestInference.kt:24-49 | `"hello"`, `42`, `true`, `null`, `Grade.A`, `[1, 2, 3]` and `{a: true, b: 1}` convert as the tests state; a non-`String` key fails |
| Inference.StudentToJson | src/test/kotlin/json/TestInference.kt:8-13 | a student host listing its four properties converts to those properties in the order the host lists them; a missing grade gives `null`, a grade its name |
| Inference.CourseExample | src/test/kotlin/json/TestInference.kt:52-66 | the course converts, in the order its host lists its properties, to `title` `PA`, `credits` 6 and both students, with `"grade": null` for Alice and `"grade": "B"` for Bob |
| Inference.Student | src/test/kotlin/json/TestInference.kt:8-13 | the test's `Student` data class as a host value, its properties in declaration order |
| Inference.Course | src/test/kotlin/json/TestInference.kt:52-57 | the test's course as a host value, its properties in declaration order |
| Strings.Split | src/main/kotlin/api/server/Route.kt:15 | `split` gives at least one piece |
| Strings.SplitPiecesAvoidSeparator | src/main/kotlin/api/server/Route.kt:15 | no piece holds the separator |
| Strings.JoinSplit | src/main/kotlin/api/server/Route.kt:15 | joining the pieces with the separator gives the string back |
| Strings.SplitInjective | src/main/kotlin/api/server/Route.kt:15-16 | two strings with the same pieces are equal |
| Strings.LeadingRun | src/main/kotlin/api/server/Router.kt:88 | the length of the leading run of the character: every character before it is the character, and the one at it (if any) is not |
| Strings.TrailingRun | src/main/kotlin/api/server/Router.kt:88 | the length of the trailing run of the character: every character after the cut is the character, and the one just before it (if any) is not |
| Strings.Trim | src/main/kotlin/api/server/Router.kt:88 | the result is the infix of the input that starts right after the leading run of the character and is followed only by that character up to the end; it neither starts nor ends with the character |
| Strings.IntToStringRoundTrip | src/main/kotlin/json/model/JValue.kt:51 | the decimal text of an integer reads back as that integer |
| Strings.Join | src/main/kotlin/json/model/JObject.kt:17 | definition of `joinToString(separator)`; stated by `JoinSplit`, `JoinHead` and `JoinFour` |
| Strings.JoinHead | src/main/kotlin/json/model/JObject.kt:17 | a join whose first part is non-empty starts with that part's first character |
| Strings.JoinFour | src/main/kotlin/json/model/JObject.kt:17 | four parts are joined with the separator between each two |
| Strings.IsBlank | src/main/kotlin/json/visitor/JVisitor.kt:129 | definition of `isBlank()`: empty or whitespace only; used by `KeyRules.KeyFindings` |
| Strings.IntToString | src/main/kotlin/json/model/JValue.kt:51 | definition of `Int.toString()`, a `-` sign before the digits; stated by `IntToStringRoundTrip` |
| Strings.ParseNatToString | src/main/kotlin/json/model/JValue.kt:51 | the decimal digits of a natural number read back as that number |
| Routes.Route.ExtractPathVariables | src/main/kotlin/api/server/Route.kt:25-38 | the loop's map is the fold `PathVariables` over all template segments; `None` when a variable has no request segment |
| Routes.VariableName | src/main/kotlin/api/server/Route.kt:32 | the name with its parentheses put back is the segment |
| Routes.FailureStays | src/main/kotlin/api/server/Route.kt:30-35 | once extraction fails it stays failed |
| Routes.ExtractFailsIff | src/main/kotlin/api/server/Route.kt:33 | extraction fails exactly when a variable segment's index is past the request's segments |
| Routes.ExtractKeys | src/main/kotlin/api/server/Route.kt:30-32 | the keys are exactly the variable segments' names, parentheses removed |
| Routes.ExtractLastWins | src/main/kotlin/api/server/Route.kt:33 | a name maps to the request segment at the last variable segment with that name |
| Routes.NoVariablesEmpty | src/main/kotlin/api/server/Route.kt:28-37 | a template without variable segments yields an empty map |
| Routes.MatchedExtracts | src/main/kotlin/api/server/Route.kt:14-38 | after a match, extraction cannot fail |
| Routes.MatchNeedsSameCount | src/main/kotlin/api/server/Route.kt:18 | different segment counts never match |
| Routes.MatchSelf | src/main/kotlin/api/server/Route.kt:20-22 | every template matches itself |
| Routes.MatchLiteralIff | src/main/kotlin/api/server/Route.kt:14-23 | a template without variable segments matches exactly the identical path |
| Routes.OneVariableExample | src/main/kotlin/api/server/Route.kt:14-38 | `prefix/(name)` matches `prefix/value` and binds `name` to `value`, and does not match `prefix` |
| Routes.Route.Match | src/main/kotlin/api/server/Route.kt:14-23 | definition of `match`; stated by `MatchNeedsSameCount`, `MatchSelf`, `MatchLiteralIff` and `MatchedExtracts` |
| Routes.IsVariable | src/main/kotlin/api/server/Route.kt:21 | definition of `startsWith('(') && endsWith(')')` |
| Routes.PathVariables | src/main/kotlin/api/server/Route.kt:30-35 | definition of the `forEachIndexed` fold over the template's segments; stated by `ExtractFailsIff`, `ExtractKeys` and `ExtractLastWins` |
| Router.BasePath | src/main/kotlin/api/server/Router.kt:46 | the base path has no `/` at either end |
| Router.JoinTemplateShape | src/main/kotlin/api/server/Router.kt:49-51 | the template has no `/` at either end; empty parts are dropped and two non-empty parts are joined by one `/` |
| Router.FilterPair | src/main/kotlin/api/server/Router.kt:49-50 | filtering the pair keeps its non-empty parts in order |
| Router.WordRunEnd | src/main/kotlin/api/server/Router.kt:53 | the end of the longest run of `\w` characters from a position |
| Router.BraceVariablesSound | src/main/kotlin/api/server/Router.kt:53-56 | every name found is a word standing between braces in the template, in increasing non-overlapping positions (the converse is `BraceVariablesComplete`) |
| Router.FoundAtEarlier | src/main/kotlin/api/server/Router.kt:54 | what is found from a later position is found from an earlier one |
| Router.FoundAtCons | src/main/kotlin/api/server/Router.kt:54-55 | a braced word followed by later finds is a find |
| Router.NoBraceNoVariables | src/main/kotlin/api/server/Router.kt:53-56 | a template without `{` has no variables |
| Router.QueryVariables | src/main/kotlin/api/server/Router.kt:58-61 | no more names than parameters; which names, and in what order, is stated by `QueryVariablesPicks` |
| Router.RoutesOfFunctionsCount | src/main/kotlin/api/server/Router.kt:47-48 | one route per annotated function, none for the others |
| Router.RoutesOfFunctionsTrimmed | src/main/kotlin/api/server/Router.kt:49-51 | every registered template has no `/` at either end |
| Router.SplitAtFirst | src/main/kotlin/api/server/Router.kt:110 | the name holds no `=`; with an `=` the piece is name, `=`, value; without one the value is empty |
| Router.FirstSplitUnique | src/main/kotlin/api/server/Router.kt:110 | splitting `a=b` with `=`-free `a` gives `a` and `b` |
| Router.ToMapKeys | src/main/kotlin/api/server/Router.kt:115 | a name is a key exactly when some pair has it |
| Router.ToMapLastWins | src/main/kotlin/api/server/Router.kt:115 | a name maps to the value of its last pair |
| Router.QueryPairSource | src/main/kotlin/api/server/Router.kt:109-114 | every pair comes from some `&`-piece |
| Router.QueryPieceKept | src/main/kotlin/api/server/Router.kt:109-114 | every piece with a non-empty name gives a pair |
| Router.QueryEmpty | src/main/kotlin/api/server/Router.kt:108 | a missing or empty query gives an empty map |
| Router.PairsKeys | src/main/kotlin/api/server/Router.kt:109-115 | a name is a key exactly when some piece gives a pair with that name |
| Router.QueryKeys | src/main/kotlin/api/server/Router.kt:107-116 | a name is a parameter exactly when some `&`-piece of the query gives it |
| Router.QueryPieceAtFirstEquals | src/main/kotlin/api/server/Router.kt:110 | `name=value` gives `(name, value)` even when the value holds `=` |
| Router.QueryPieceShapes | src/main/kotlin/api/server/Router.kt:111-112 | a piece without `=` gives its name with `""`; a piece with an empty name is dropped |
| Router.QueryLastWins | src/main/kotlin/api/server/Router.kt:109-115 | a parameter takes the value of the last piece naming it, undecoded |
| Router.FirstMatch | src/main/kotlin/api/server/Router.kt:89 | a found index is in range and its route matches |
| Router.FirstMatchIsFirst | src/main/kotlin/api/server/Router.kt:89-90 | no earlier route matches, and nothing is found exactly when no route matches |
| Router.Router.constructor | src/main/kotlin/api/server/Router.kt:34-36 | the routes are those of the controllers, in order |
| Router.Router.RegisterController | src/main/kotlin/api/server/Router.kt:45-72 | the controller's routes, one per annotated function, are appended in order |
| Router.Router.HandleRequest | src/main/kotlin/api/server/Router.kt:85-93 | the result is `Resolve` of the routes and the request |
| Router.ResolveRefusesNonGet | src/main/kotlin/api/server/Router.kt:86 | a method other than GET is refused whatever the path |
| Router.ResolveNotFound | src/main/kotlin/api/server/Router.kt:88-90 | a GET no route matches is not found |
| Router.ResolveFirstMatch | src/main/kotlin/api/server/Router.kt:88-93 | a GET goes to the first route matching the slash-trimmed path, with that route's variable names as keys and the parsed query |
| Router.JoinTemplate | src/main/kotlin/api/server/Router.kt:49-51 | definition of the template `listOf(base, path).filter { it.isNotEmpty() }.joinToString("/")`; stated by `JoinTemplateShape` |
| Router.BraceVariables | src/main/kotlin/api/server/Router.kt:53-56 | definition of the `findAll` scan; stated by `BraceVariablesSound`, `BraceVariablesComplete` and `NoBraceNoVariables` |
| Router.BraceVariablesComplete | src/main/kotlin/api/server/Router.kt:53-56 | every `{word}` standing in the template at or after the scan's start is found, since a match never overlaps another |
| Router.QueryVariablesPicks | src/main/kotlin/api/server/Router.kt:58-61 | name `k` is the name of parameter `idx[k]`, a `@Param` parameter; the indices rise strictly and are exactly those of the `@Param` parameters that have a name, so the names come in declaration order |
| Router.RouteFor | src/main/kotlin/api/server/Router.kt:63-69 | definition of the route built for one annotated function; stated by `RoutesOfFunctionsTrimmed` |
| Router.RoutesOfFunctions | src/main/kotlin/api/server/Router.kt:47-70 | definition of the routes of one controller's functions; stated by `RoutesOfFunctionsCount`, `RoutesOfFunctionsTrimmed` and `Router.RegisterController` |
| Router.RoutesOfControllers | src/main/kotlin/api/server/Router.kt:34-36 | definition of the routes of all controllers, in order; stated by `Router.constructor` |
| Router.QueryPair | src/main/kotlin/api/server/Router.kt:110-113 | definition of one `&`-piece's pair; stated by `QueryPieceShapes` and `QueryPieceAtFirstEquals` |
| Router.QueryPairs | src/main/kotlin/api/server/Router.kt:109-114 | definition of the `mapNotNull` over the pieces; stated by `QueryPairSource` and `QueryPieceKept` |
| Router.ToMap | src/main/kotlin/api/server/Router.kt:115 | definition of `toMap()`; stated by `ToMapKeys` and `ToMapLastWins` |
| Router.ParseQueryParams | src/main/kotlin/api/server/Router.kt:107-116 | definition of `parseQueryParams`; stated by `QueryEmpty`, `QueryKeys` and `QueryLastWins` |
| Router.Resolve | src/main/kotlin/api/server/Router.kt:85-93 | definition of `handleRequest` up to the call; stated by `ResolveRefusesNonGet`, `ResolveNotFound` and `ResolveFirstMatch` |

## Left out

- Floating point: `JNumber` holds an integer. `Number.toString` of a `Double` (`JValue.kt:51`) and the `Double` branch of `toJson(value)` (`Inference.kt:28`) are not modelled.
- Inference.ToJson: an `Int` is an unbounded integer; the 32-bit range is not modelled.
- Inference.ToJson: a `Long`, a `Float` or another non-`Int`/`Double` number is not a separate alternative. Such a value is an `HObject` with whatever public properties it has.
- Inference.StudentToJson: a host object lists its public properties in the order `value::class.members` returns them (`Inference.kt:37`), which Kotlin does not promise to be declaration order; the test only checks `contains`. The example hosts list them in declaration order, so the property order in this example, and in Inference.CourseExample, is the model's choice, not a promise of the source.
- Inference.CourseExample: the same property-order caveat applies (see Inference.StudentToJson).
- Inference.ToJson: the host value is a finite datatype, so a cyclic object graph (on which the source does not terminate) cannot be expressed.
- Reflection is not modelled:
  - `memberFunctions`, `findAnnotation`, `visibility` and `KProperty1.get` are replaced by data. A controller lists its functions in `memberFunctions` order with their `@Mapping` paths and parameters, and an object lists its public properties in order.
  - `buildPositionalArgs`, `convertType` and `function.call` are left out, with the `toJson(result).toString()` of the response. `Router.Router.HandleRequest` stops at the handler and the two value maps.
- Router.Router.HandleRequest: takes the already-decoded `uri.path` and `uri.query` as parameters. URI parsing and percent-decoding by `java.net.URI` are not modelled. The two `NotFoundException`s are the two `RequestError` values.
- Routes.Route.ExtractPathVariables: `None` stands for the `IndexOutOfBoundsException` that `requestParts[index]` raises, which the source does not catch.
- Route's `Method` field and `instance` are one opaque handler number.
- HTTP I/O is not modelled: `GetJson.kt`, `RequestHandler.kt`, server start-up in `main.kt`, the annotations in `Mapping.kt`, and the build script.
- Validators.KeyValidatorVisitor.Result: a message embeds the object's `toString()`. That rendering is a parameter `show`, not a model of the object's `toString`.
- Validators.ClassName: `KClass.toString()` is written as `class json.model.elements.<Name>` for the seven node classes. The JVM's exact text is not checked.
- Visitors.ArrayTypeValidator.Accept: the traversal is written once per visitor class, as a method of that class that follows `Trace`, rather than as one `accept` per node class dispatching through an interface.
- Visitors.KeyValidatorVisitor.Accept: same as above.
- The visitors in `validators/` declare `visit` as returning `Unit`. They are modelled as the per-array and per-object steps they define (`Visit`); the traversal that would drive them is the one in `Visitors`.
- The list-based object's `addProperty`, `setProperty`, `removeProperty`, `hasProperty` and `getProperty` are not modelled: their source is not part of this model, and only a test uses them.
- The indented `{ }` rendering of an empty object that `TestModel.kt` asserts is not modelled. No serialiser in the sources writes it; `JObject.toJson` writes `{}`.
- The `toString()` pretty printer of the element tree is not modelled: it is not part of the sources. `nodeIdent` is modelled on its own.
- With only the constructors shown, the only parent links are those `JProperty` writes, so every depth in a built tree is 0 (`Elements.OwnedDepthIsZero`). The depth lemmas also hold for arbitrary parent links.
- Immutability of `JArray`, `JObject` and the leaf payloads, and "the receiver is left untouched" for `plus`, `filter` and `map`: the values are Dafny datatypes, which cannot change. This holds by construction, and no lemma states it.
- The "valid JSON string" that `JValue.toJson` promises (`JValue.kt:19`) is not kept for strings, and the model does not promise it either. Section 7 of RFC 8259 requires every character from U+0000 to U+001F to be escaped, but `JString.toJson` (`JValue.kt:34-42`) escapes only five of them and writes the other 27 raw (`JsonValues.ControlCharacterWrittenRaw`). It also never writes the optional `\/` escape.
- JsonValues.Escape: JSON key escaping is a loop over a `StringBuilder`. The model is a method over a string value, so the builder's in-place growth is not modelled.
