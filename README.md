# Nancy.JsonPatch, modelled in Dafny

Nancy.JsonPatch applies a JSON Patch document to a caller's in-memory object graph. The document is an ordered list of the six verbs of section 4 of RFC 6902: add, remove, replace, move, copy and test. This project models and proves four parts of it:

- **The path resolver** (`JsonPatchPathParser.GetThing`). It strips the leading slashes of a JSON-Pointer-like path and splits the rest on `/`. It walks every segment but the last, through properties and list indices, then checks the last segment. The result is a location (`TargetObject`, `TargetPropertyName`, `IsCollection`) or one of its exceptions. The `~0`/`~1` escapes of section 3 of RFC 6901 are not implemented by the resolver, and not here either.
- **The operation reader** (`JsonPatchRequestConverter.Deserialize`). It turns one object of the document into a typed operation. It runs five checks in a fixed order, each with its own message.
- **The orchestrator** (`JsonPatchExecutor.Patch` and `Failure`). It parses the document, then for each operation in order resolves the path, resolves "from" for move and copy only, and runs the verb. It stops at the first failure and files it under a `JsonPatchFailureReason`. Operations already applied stay applied.
- **The remove verb** (`JsonPatchOperationExecutor.Remove`). On a list it deletes the element at the index. On a property it resets the value to what `SetValue(obj, null)` leaves: null, or 0 for an `int`.

How the object graph is represented:

- The graph is a value, `ObjectModel.Value`: null, int, string, a list with its element type, or an object whose properties carry a value, a declared type and a setter flag.
- Reflection (`GetProperty`, `GetValue`, `SetValue`, `CanWrite`) becomes map lookups and the functional updates `Get` and `Set`.
- A resolved location (`Models.JsonPatchPath`) holds the steps from the root to the source's `TargetObject`.
- The caller's target, which `Patch` and `Remove` mutate in place, is the class `ObjectModel.Graph`. Both are methods that modify it, proved against the pure functions `PatchSpec` and `RemoveSpec`.
- `GetThing` is a loop and early returns over local variables, as the source writes it, proved equal to the function `Resolve`.
- `ParsePath`, whose code is not part of this model, is written as a method that runs `GetThing` and catches its exception into the error, proved equal to the function `Locate`.

The source calls five verbs whose code is not part of this model: replace, add, move, copy and test. They are written as functions (`OperationExecutor.Replace`, `Add`, `Move`, `Copy`, `Test`) following their documented design and the end-to-end tests. The JSON serializer they borrow is a parameter, `OperationExecutor.Codec`, with four parts:

- coercion of a JSON value to a declared type;
- serialization of a graph value;
- the canonical text `test` compares;
- the CLR name of a type used in messages.

The module `Scenarios` replays the repository's own test cases on the model. It uses the `ExampleTarget` fixture of `src/Nancy.JsonPatch.Tests/Fakes/ExampleTarget.cs:5-20` as a graph value.

Where the documented behaviour and the code disagree, the model follows the code or, where the code shown cannot be the one the tests run, the tests:

- **The append marker.** The documented behaviour says `/IntList/-` appends. In the code, `int.TryParse("-")` fails, so the resolver looks up a property named `-` on the list and throws "Could not find path". `Scenarios.AppendMarkerIsNotFound` proves this. `Add` still implements the marker for a collection location, but the resolver never returns one.
- **Parsing a path.** `ParsePath` is called by `Patch` but its code is not shown. Its result type holds a location or an error message. The test at `src/Nancy.JsonPatch.Tests/JsonPatchExecutorTests.cs:384-407` expects `CouldNotParsePath` for a path that crashes the resolver with a null dereference. So the model catches every exception of `GetThing` into the error (see `JsonPatchExecutor.ParsePath` under "## Left out").
- **Removing past the end of a list.** The `Remove` shown has no bounds check: `RemoveAt` throws, and `Patch` does not catch it. But `Patch` reads a result from `Remove`, and its test expects the failure message "Could not find item 89 in the collection". The model returns that failure.
- **The reason on success.** `new JsonPatchResult { Succeeded = true }` leaves `FailureReason` at the enum's first member, `TestFailed`. The model keeps that (`JsonPatchExecutor.Succeeded`).
- **Crashes in the resolver.** A missing intermediate property, a numeric first segment, a null list element, or an intermediate index outside the list would crash the resolver with a .NET exception. Each becomes the error `NullReference` or `IndexOutOfRange`, carrying the runtime's message as the model's `Message` writes it: for `IndexOutOfRange` that is .NET's text abbreviated, without the parameter-name line ("Parameter name: index") the runtime appends. `Patch` reports it as `CouldNotParsePath`, which is what its test expects.
- **The leading slash.** The documented behaviour requires a path to start with `/`. The code only trims leading slashes, so "Name" resolves as "/Name" does (`PathParser.SegmentsOf`, with zero slashes).
- **The empty path and the root.** The documented behaviour gives "" and "/" errors of their own. In the code both become the single segment "", and the property lookup fails with "Could not find path" (`PathParser.ResolveSlashesOnly`).
- **Intermediate segments.** The documented behaviour requires an intermediate property to be settable and an index to be non-negative. The code checks neither: `GetValue` reads any property, and a negative or too-large index reaches the list indexer, which throws (`PathParser.StepInto`, `PathParser.StepIntoErrors`).
- **The property-name resolver.** The documented behaviour routes member names through a pluggable name resolver. `GetThing` never consults one: it looks up each segment as written.
- **The empty-path guard.** `GetThing` returns null when there are no segments, but `Split` always yields at least one, so that branch cannot run (`PathParser.Segments` ensures `|r| >= 1`).

## Model

| member | source | states |
|---|---|---|
| PathParser.TrimStartRemovesSlashes | src/Nancy.JsonPatch/PathParser/JsonPatchPathParser.cs:18 | the path is a run of slashes followed by its trimmed form, and the trimmed form never starts with '/' |
| PathParser.SplitJoin | src/Nancy.JsonPatch/PathParser/JsonPatchPathParser.cs:19 | no segment contains '/', and joining the segments with '/' gives the text back |
| PathParser.SplitOfJoin | src/Nancy.JsonPatch/PathParser/JsonPatchPathParser.cs:19 | splitting slash-free parts joined by '/' gives back exactly those parts, empty ones included |
| PathParser.SegmentsOf | src/Nancy.JsonPatch/PathParser/JsonPatchPathParser.cs:18-19 | any number of leading slashes before slash-free parts with a non-empty first part yields exactly those parts as segments |
| PathParser.ResolveSlashesOnly | src/Nancy.JsonPatch/PathParser/JsonPatchPathParser.cs:72-74 | on an object with no property named "", a path made only of slashes, "/" included, fails with "Could not find path" naming that path |
| PathParser.GetThing | src/Nancy.JsonPatch/PathParser/JsonPatchPathParser.cs:13-85 | the segment loop with its parent and target variables, and the checks after it, return exactly the location or exception that `Resolve` gives; it only reads the graph |
| PathParser.CheckLastSection | src/Nancy.JsonPatch/PathParser/JsonPatchPathParser.cs:59-84 | the checks on the last segment, given what the loop left, agree with `Finish` |
| PathParser.WalkReaches | src/Nancy.JsonPatch/PathParser/JsonPatchPathParser.cs:29-57 | each object the loop reaches is what its recorded steps lead to from the root: every step is a property read or a list index |
| PathParser.WalkFailureSticks | src/Nancy.JsonPatch/PathParser/JsonPatchPathParser.cs:29-57 | once a step throws, the rest of the loop does not run: the walk keeps that error |
| PathParser.WalkErrorKinds | src/Nancy.JsonPatch/PathParser/JsonPatchPathParser.cs:36-52 | the loop raises only "not a collection", "is null", a null dereference or an index out of range, never "could not find" or "cannot be set" |
| PathParser.StepIntoErrors | src/Nancy.JsonPatch/PathParser/JsonPatchPathParser.cs:36-52 | one step throws "not a collection" exactly for a numeric segment on a non-list, naming the previous segment; it throws "is null" exactly for an existing property holding null, naming that property |
| PathParser.ResolvedPathIsValid | src/Nancy.JsonPatch/PathParser/JsonPatchPathParser.cs:59-84 | a returned location names the last segment; it is a collection location exactly when that segment parses as an int; it designates a list, or an object with a settable property of that name |
| PathParser.ResolvePropertyIff | src/Nancy.JsonPatch/PathParser/JsonPatchPathParser.cs:70-84 | with a non-numeric last segment, resolution succeeds exactly when the walk reaches an object with a settable property of that name; the location is then that object, that name and not a collection |
| PathParser.ResolveCollectionIff | src/Nancy.JsonPatch/PathParser/JsonPatchPathParser.cs:60-69 | with a numeric last segment, resolution succeeds exactly when a property-name segment precedes it and the walk reaches a list through it; the location is that list, and the index is never compared with its length |
| PathParser.ResolveNotFoundIff | src/Nancy.JsonPatch/PathParser/JsonPatchPathParser.cs:72-74 | "Could not find path" is reported, with the whole path, exactly when the walk succeeds, the last segment is not numeric and the object reached has no such property |
| PathParser.ResolveCannotSetIff | src/Nancy.JsonPatch/PathParser/JsonPatchPathParser.cs:76-78 | "cannot be set" is reported exactly when the property exists but has no setter, so the existence check comes first |
| PathParser.ResolveIsNullIff | src/Nancy.JsonPatch/PathParser/JsonPatchPathParser.cs:47-51 | "'name' is null" is reported exactly when a segment before the last names an existing property holding null on an object the walk reached; the name is that segment |
| PathParser.ResolveNotCollectionIff | src/Nancy.JsonPatch/PathParser/JsonPatchPathParser.cs:36-67 | "'name' is not a collection" is reported exactly when a numeric segment meets a non-list: an intermediate one names the segment before it, the last one names the property before it; strings are not collections |
| DocumentParser.OpNameRoundTrip | src/Nancy.JsonPatch/DocumentParser/JsonPatchRequestConverter.cs:27-29 | the op parser reads back each of the six member names as its code, and accepts no other text for that code |
| DocumentParser.DeserializeErrors | src/Nancy.JsonPatch/DocumentParser/JsonPatchRequestConverter.cs:20-38 | each of the five messages is reported exactly when its check is the first to fail (op present, op a string, op valid, path present, path a string); an operation is produced exactly when all pass |
| DocumentParser.OpCheckedFirst | src/Nancy.JsonPatch/DocumentParser/JsonPatchRequestConverter.cs:20-29 | when the op member is missing, not a string or not valid, the outcome is the same failure whatever the rest of the object holds |
| DocumentParser.DeserializeReadsMembers | src/Nancy.JsonPatch/DocumentParser/JsonPatchRequestConverter.cs:31-44 | a produced operation carries the object's op and path; its value is present exactly when the object has one, kept verbatim; its "from" is present exactly when the object's "from" is a string |
| DocumentParser.DeserializeToObject | src/Nancy.JsonPatch/DocumentParser/JsonPatchRequestConverter.cs:16-47 | every operation reads back unchanged from the object it is written as |
| DocumentParser.DeserializeEach | src/Nancy.JsonPatch/DocumentParser/JsonPatchDocumentParser.cs:9-16 | a document converts to one operation per object, in order, when every object converts; otherwise it fails with the message of the first object that does not |
| IntParse.TryParseInt | src/Nancy.JsonPatch/PathParser/JsonPatchPathParser.cs:61 | `int.TryParse` on a segment: a result, when there is one, lies in the 32-bit range |
| IntParse.ParsedCharacters | src/Nancy.JsonPatch/PathParser/JsonPatchPathParser.cs:61 | a segment that parses holds at least one digit, and nothing but digits, signs and white space |
| IntParse.TrimmedInside | src/Nancy.JsonPatch/PathParser/JsonPatchPathParser.cs:61 | trimming the white space around a segment drops white space only and invents no character |
| IntParse.LeadingInside | src/Nancy.JsonPatch/PathParser/JsonPatchPathParser.cs:61 | trimming leading white space drops white space only |
| IntParse.TrailingInside | src/Nancy.JsonPatch/PathParser/JsonPatchPathParser.cs:61 | trimming trailing white space drops white space only |
| IntParse.NatToString | src/Nancy.JsonPatch/PathParser/JsonPatchPathParser.cs:61 | the decimal text of a natural number is non-empty, all digits, and has that value |
| IntParse.ParseRendered | src/Nancy.JsonPatch/PathParser/JsonPatchPathParser.cs:61 | every 32-bit integer written in decimal parses back to itself |
| IntParse.NameIsNotNumber | src/Nancy.JsonPatch/PathParser/JsonPatchPathParser.cs:61 | a segment with a character other than a digit, a sign or white space is not a number, so it is looked up as a property |
| IntParse.SignAloneIsNotNumber | src/Nancy.JsonPatch/PathParser/JsonPatchPathParser.cs:61 | "-", "+" and "" are not numbers |
| ObjectModel.GetSetSame | src/Nancy.JsonPatch/OperationProcessor/JsonPatchOperationExecutor.cs:18-20 | after a write at a location that exists, reading that location gives the written value |
| ObjectModel.GetSetDisjoint | src/Nancy.JsonPatch/OperationProcessor/JsonPatchOperationExecutor.cs:18-20 | a write leaves every location that is neither above nor below it unchanged |
| ObjectModel.SetSet | src/Nancy.JsonPatch/OperationProcessor/JsonPatchOperationExecutor.cs:18-20 | a second write at the same location overrides the first |
| ObjectModel.SetGet | src/Nancy.JsonPatch/OperationProcessor/JsonPatchOperationExecutor.cs:18-20 | writing back the value a location holds changes nothing |
| ObjectModel.GetAppend | src/Nancy.JsonPatch/PathParser/JsonPatchPathParser.cs:29-57 | following a path of steps in two parts is following the first, then the second from where it led: the walk over segments composes |
| ObjectModel.SetMissing | src/Nancy.JsonPatch/OperationProcessor/JsonPatchOperationExecutor.cs:18-20 | a write at a location that no longer exists leaves the graph as it was |
| ObjectModel.SetKeepsField | src/Nancy.JsonPatch/OperationProcessor/JsonPatchOperationExecutor.cs:18-20 | a write neither above nor below a property leaves that property's value, declared type and setter as they were, even when it goes through the object holding it |
| OperationExecutor.Remove | src/Nancy.JsonPatch/OperationProcessor/JsonPatchOperationExecutor.cs:8-22 | on a location the resolver returned, the graph after the call and the reported result are those of `RemoveSpec` on the graph before |
| OperationExecutor.RemoveDeletesElement | src/Nancy.JsonPatch/OperationProcessor/JsonPatchOperationExecutor.cs:11-15 | removing an index inside the list succeeds, and the list then has one element fewer with the same element type; elements before the index are unchanged, later ones shift down by one, and the multiset loses exactly the removed element |
| OperationExecutor.RemoveFailsIff | src/Nancy.JsonPatch.Tests/JsonPatchExecutorTests.cs:251-275 | removal fails exactly for a list index outside the list, and then reports "Could not find item N in the collection" and changes nothing |
| OperationExecutor.RemoveResetsProperty | src/Nancy.JsonPatch/OperationProcessor/JsonPatchOperationExecutor.cs:16-21 | removing a property succeeds and leaves 0 in an int property and null in any other, with the declared type unchanged and the location still valid |
| OperationExecutor.RemoveTwice | src/Nancy.JsonPatch/OperationProcessor/JsonPatchOperationExecutor.cs:16-21 | removing a property twice leaves the graph as removing it once |
| OperationExecutor.RemoveFrame | src/Nancy.JsonPatch/OperationProcessor/JsonPatchOperationExecutor.cs:8-22 | removal leaves every place apart from the designated list or property unchanged |
| OperationExecutor.ReplaceOutcome | src/Nancy.JsonPatch.Tests/JsonPatchExecutorTests.cs:20-69 | a replace succeeds exactly when the member exists and the value coerces to its declared type; the member then reads as the coerced value; a failure changes nothing and reports "could not find" when the member cannot be read, the conversion message naming the declared type otherwise |
| OperationExecutor.ReplaceFrame | src/Nancy.JsonPatch/JsonPatchExecutor.cs:33-37 | a replace leaves every place apart from the designated list or property unchanged |
| OperationExecutor.AddOnPropertyIsReplace | src/Nancy.JsonPatch/JsonPatchExecutor.cs:59-63 | on a property, add is replace |
| OperationExecutor.AddInserts | src/Nancy.JsonPatch.Tests/JsonPatchExecutorTests.cs:171-197 | adding at an index up to the list's length inserts the coerced value before it: one element more, earlier elements unchanged, later ones shifted up by one, and the multiset gains exactly that value |
| OperationExecutor.AddAppends | src/Nancy.JsonPatch/JsonPatchExecutor.cs:59-63 | adding at "-" appends the coerced value after the last element, keeping the others |
| OperationExecutor.AddToListFailsIff | src/Nancy.JsonPatch.Tests/JsonPatchExecutorTests.cs:199-223 | an add to a list fails exactly when the value does not coerce to the element type (checked first, naming the type) or the index lies past the end; a failure changes nothing |
| OperationExecutor.AddFrame | src/Nancy.JsonPatch/JsonPatchExecutor.cs:59-63 | an add leaves every place apart from the designated list or property unchanged |
| OperationExecutor.TestReflexive | src/Nancy.JsonPatch/JsonPatchExecutor.cs:71-75 | a test against the serialized value just read from the same location passes |
| OperationExecutor.TestOutcome | src/Nancy.JsonPatch.Tests/JsonPatchExecutorTests.cs:277-327 | a test passes exactly when the member exists and renders as the given value does; it fails with "Test operation failed. 'name' property did not match" exactly when the member exists and renders differently |
| OperationExecutor.ReplaceThenTest | src/Nancy.JsonPatch.Tests/JsonPatchExecutorTests.cs:434-472 | after a successful replace, a test with the same value passes, provided the serializer renders a coerced value as the text it came from |
| OperationExecutor.CopyKeepsSource | src/Nancy.JsonPatch.Tests/JsonPatchExecutorTests.cs:121-144 | a copy leaves the value at its source unchanged when the destination is apart from it |
| OperationExecutor.MoveResetsSource | src/Nancy.JsonPatch.Tests/JsonPatchExecutorTests.cs:71-94 | a move out of a property leaves that property reset, as remove does, when the destination is apart from it |
| OperationExecutor.CopyPlacesValue | src/Nancy.JsonPatch.Tests/JsonPatchExecutorTests.cs:121-169 | for any readable source and settable destination property, a copy succeeds exactly when the source value, serialized, coerces to the destination's declared type, and the destination then holds the coerced value; otherwise it fails with "The value could not be converted to type …" and changes nothing |
| OperationExecutor.MovePlacesValue | src/Nancy.JsonPatch.Tests/JsonPatchExecutorTests.cs:71-119 | for any readable source and settable destination property apart from it, a move succeeds exactly when the source value, serialized, coerces to the destination's declared type, and the destination then holds the coerced value; otherwise it fails with the conversion message, the source already removed |
| OperationExecutor.RemoveKeepsApartField | src/Nancy.JsonPatch/OperationProcessor/JsonPatchOperationExecutor.cs:18-20 | a removal leaves every property apart from its footprint as it was, value, declared type and setter |
| OperationExecutor.ReadThenRemove | src/Nancy.JsonPatch/OperationProcessor/JsonPatchOperationExecutor.cs:18-20 | a location that can be read can be removed: the removal does not fail |
| JsonPatchExecutor.Locate | src/Nancy.JsonPatch/JsonPatchExecutor.cs:27-29 | a path yields a location only when it is present and the resolver succeeds, and that location is valid in the graph; otherwise it yields the resolver's message |
| JsonPatchExecutor.ParsePath | src/Nancy.JsonPatch/PathParser/JsonPatchPathParserResult.cs:5-9 | running `GetThing` and turning its exception into the error gives `Locate`'s outcome |
| JsonPatchExecutor.ApplyOperation | src/Nancy.JsonPatch/JsonPatchExecutor.cs:27-75 | an unresolvable path stops with `CouldNotParsePath` before anything else; for move and copy whose path resolves, `CouldNotParseFrom` arises exactly when "from" does not resolve, with the resolver's message and the graph untouched; a stop is `TestFailed` exactly for a test whose path resolved; a test never changes the graph |
| JsonPatchExecutor.ApplyOperationDispatch | src/Nancy.JsonPatch/JsonPatchExecutor.cs:31-75 | once the path resolves, replace, add and remove stop as `OperationFailed` with the verb's message exactly when the verb fails, and otherwise continue with the graph it left; a failing test stops as `TestFailed` with its message; move and copy stop as `CouldNotParseFrom` when "from" is absent (a null dereference) or does not resolve, and otherwise fail as `OperationFailed` exactly when the verb does |
| JsonPatchExecutor.ApplyOperations | src/Nancy.JsonPatch/JsonPatchExecutor.cs:25-79 | a run succeeds exactly when its message is null, a success is the plain `Succeeded` result, and a run over parsed operations never fails with `CouldNotParseJson` |
| JsonPatchExecutor.Patch | src/Nancy.JsonPatch/JsonPatchExecutor.cs:9-80 | the loop mutates the caller's target in place, and its result and the target afterwards are those of `PatchSpec` on the target before |
| JsonPatchExecutor.MalformedRunsNothing | src/Nancy.JsonPatch/JsonPatchExecutor.cs:16-23 | a document that does not parse reports `CouldNotParseJson` with the parser's message and leaves the target unchanged |
| JsonPatchExecutor.ApplyOperationsAppend | src/Nancy.JsonPatch/JsonPatchExecutor.cs:25-77 | running two lists of operations back to back runs the second, on the graph the first left, only when the first succeeded entirely; otherwise the first's failure is the whole outcome |
| JsonPatchExecutor.StopsAtFirstFailure | src/Nancy.JsonPatch/JsonPatchExecutor.cs:25-77 | when the first k operations succeed and operation k stops, the run's result and graph are exactly that stop's, whatever follows, with the first k left applied |
| JsonPatchExecutor.FailingOperation | src/Nancy.JsonPatch/JsonPatchExecutor.cs:25-77 | a failed run was stopped by one operation, all before it having succeeded, and reports that operation's result and graph |
| JsonPatchExecutor.FailureReasons | src/Nancy.JsonPatch/JsonPatchExecutor.cs:29-74 | a failed run never reports `CouldNotParseJson`; it reports `CouldNotParseFrom` only if the document has a move or copy, and `TestFailed` only if it has a test |
| Scenarios.MissingPropertyIsNotFound | src/Nancy.JsonPatch.Tests/PathParser/JsonPatchPathParserTests.cs:19-32 | "/DoesntExist" on a fresh target fails with "Could not find path '/DoesntExist' in target object" |
| Scenarios.PropertyWithoutSetterCannotBeSet | src/Nancy.JsonPatch.Tests/PathParser/JsonPatchPathParserTests.cs:34-47 | "/CantSetMe" fails with "Property '/CantSetMe' on target object cannot be set" |
| Scenarios.NestedPropertyIsFound | src/Nancy.JsonPatch.Tests/PathParser/JsonPatchPathParserTests.cs:50-66 | "/Child/ChildName" resolves to the child object and that property, not a collection |
| Scenarios.NullChildIsReported | src/Nancy.JsonPatch.Tests/PathParser/JsonPatchPathParserTests.cs:68-81 | "/Child/ChildName" with a null child fails with "'Child' is null" |
| Scenarios.NestedPropertyWithoutSetterCannotBeSet | src/Nancy.JsonPatch.Tests/PathParser/JsonPatchPathParserTests.cs:83-96 | "/Child/ChildCantSetMe" fails with "cannot be set" |
| Scenarios.ListItemIsFound | src/Nancy.JsonPatch.Tests/PathParser/JsonPatchPathParserTests.cs:98-114 | "/StringList/1" resolves to the string list itself, as a collection location with member "1" |
| Scenarios.PropertyOfListItemIsFound | src/Nancy.JsonPatch.Tests/PathParser/JsonPatchPathParserTests.cs:116-137 | "/ChildList/1/ChildName" resolves to the second child and its name property |
| Scenarios.IndexIntoStringIsNotCollection | src/Nancy.JsonPatch.Tests/PathParser/JsonPatchPathParserTests.cs:139-152 | "/Name/1/Something" on a target whose name is a string fails with "'Name' is not a collection" |
| Scenarios.IndexIntoPropertyIsNotCollection | src/Nancy.JsonPatch.Tests/PathParser/JsonPatchPathParserTests.cs:154-175 | "/ChildList/1/ChildName/2" fails with "'ChildName' is not a collection" |
| Scenarios.AppendMarkerIsNotFound | src/Nancy.JsonPatch/PathParser/JsonPatchPathParser.cs:59-74 | "/IntList/-" fails with "Could not find path", since "-" does not parse as an int |
| Scenarios.ReplaceAssignsNumber | src/Nancy.JsonPatch.Tests/JsonPatchExecutorTests.cs:20-43 | replacing "/ValueType" with 999 succeeds and leaves 999 there |
| Scenarios.ReplaceWithTextFails | src/Nancy.JsonPatch.Tests/JsonPatchExecutorTests.cs:45-69 | replacing "/ValueType" with "Hello" fails as `OperationFailed` with "The value could not be converted to type Int32", the target unchanged |
| Scenarios.RemoveFirstChild | src/Nancy.JsonPatch.Tests/JsonPatchExecutorTests.cs:225-249 | removing "/ChildList/0" from two children succeeds and leaves only "Child 2" |
| Scenarios.RemovePastTheEndFails | src/Nancy.JsonPatch.Tests/JsonPatchExecutorTests.cs:251-275 | removing "/ChildList/89" from two children fails as `OperationFailed` with "Could not find item 89 in the collection", the target unchanged |
| Scenarios.PassedTestContinuesTheRun | src/Nancy.JsonPatch.Tests/JsonPatchExecutorTests.cs:277-300 | a matching test followed by a replace succeeds, and the replace is applied |
| Scenarios.FailedTestStopsTheRun | src/Nancy.JsonPatch.Tests/JsonPatchExecutorTests.cs:302-327 | a test that does not match stops the run as `TestFailed` with "Test operation failed. 'ValueType' property did not match", and the replace after it does not run |
| Scenarios.UnresolvablePathRunsNothing | src/Nancy.JsonPatch.Tests/JsonPatchExecutorTests.cs:384-407 | a remove at "/Child/L/i/st/0" fails as `CouldNotParsePath`, the target unchanged |
| Scenarios.UnresolvableFromRunsNothing | src/Nancy.JsonPatch.Tests/JsonPatchExecutorTests.cs:409-432 | a copy to "/Name" from "/ChildName" fails as `CouldNotParseFrom` with the resolver's "Could not find path" message, the target unchanged |
| Scenarios.MoveTakesChildName | src/Nancy.JsonPatch.Tests/JsonPatchExecutorTests.cs:71-94 | a move to "/Name" from "/Child/ChildName" succeeds; `Name` then holds "I am a child" and the child's name is null |
| Scenarios.MoveOfChildIntoNameFails | src/Nancy.JsonPatch.Tests/JsonPatchExecutorTests.cs:96-119 | a move of the child object into the string `Name` fails as `OperationFailed` with "The value could not be converted to type String" |
| Scenarios.CopyDuplicatesChildName | src/Nancy.JsonPatch.Tests/JsonPatchExecutorTests.cs:121-144 | a copy to "/Name" from "/Child/ChildName" succeeds; both `Name` and the child's name then hold "I am a child" |
| Scenarios.CopyOfChildIntoNameFails | src/Nancy.JsonPatch.Tests/JsonPatchExecutorTests.cs:146-169 | a copy of the child object into `Name` fails as `OperationFailed` with "The value could not be converted to type String", the target unchanged |
| Scenarios.AddInsertsChild | src/Nancy.JsonPatch.Tests/JsonPatchExecutorTests.cs:171-197 | an add of a new child at "/ChildList/1" succeeds and leaves three children, "Child 1", "New Entry", "Child 2", in that order |
| Scenarios.AddOfNumberToChildListFails | src/Nancy.JsonPatch.Tests/JsonPatchExecutorTests.cs:199-223 | an add of 789 at "/ChildList/1" fails as `OperationFailed` with "The value could not be converted to type ExampleTargetChild", the target unchanged |
| Scenarios.OperationsOnCollections | src/Nancy.JsonPatch.Tests/JsonPatchExecutorTests.cs:329-357 | a move from "/ChildList/2" into `Child`, a rename of the second child and a remove of the first, run in order, succeed; `Child` is "Child 3" and the list holds only "Replaced" |
| Scenarios.PerformsMultipleOperations | src/Nancy.JsonPatch.Tests/JsonPatchExecutorTests.cs:434-472 | five operations (move, replace, test 1234, add 789, test 789) run in order and succeed with no message; each test sees what the operations before it left, and the target ends with `Name` "I am a child", a null child name, the second child renamed and `ValueType` 789 |

## Left out

- Reference identity and aliasing: the graph is a tree of values, so two properties holding the same object are two copies here, and a write through one is not seen through the other.
- The implementations of replace, add, move, copy and test are not part of this model. They are specified as functions from their documented behaviour and the end-to-end tests, and the executor runs those.
- The JSON serializer: coercion, serialization, canonical rendering and type names are the `Codec` parameter, and the scenarios state what they need of it as preconditions.
- The JSON text parser (`JavaScriptSerializer`): a document is given either as the array of objects it reads or as `Malformed` with its message.
- The serializer matches member names without regard to case ("op" for `"Op"`). The model takes the names as already in lower case.
- `Enum.TryParse` also accepts numeric text and comma-separated names. Op parsing here is an exact match of the six names.
- `int.TryParse` is modelled for the invariant culture: white space, a sign, ASCII digits and the 32-bit range. Other cultures' signs and digits are not modelled.
- CLR types: the only types are int (the one value type), string, classes and lists. Strings and lists have no properties here, and `IsCollectionType` holds for lists alone, so arrays, dictionaries and other enumerables are not modelled. In the source a string has the get-only `Length` (and a list its `Count`), so "/Name/Length" with a non-null name fails with "Property '/Name/Length' on target object cannot be set"; the model reports "Could not find path" for it.
- When a verb writes through a location that no longer exists (the graph changed under an earlier step, or under the same move's removal at its source), the write changes nothing and reports success.
- The HTTP host, the demo application, the request reading and the implicit `bool` conversion of `JsonPatchResult` are not modelled.
- OperationExecutor.AddAppends: states the append for a collection location whose member is "-", but the resolver never returns such a location, so no patch run reaches it.
- JsonPatchExecutor.ParsePath: its code is not part of this model. Two choices rest on how `Patch` and its tests use it. Every exception of `GetThing` becomes the error, because the test at `src/Nancy.JsonPatch.Tests/JsonPatchExecutorTests.cs:384-407` expects `CouldNotParsePath` for a null dereference. An absent "from" gives the null-dereference message, because `Patch` passes the operation's null `From` straight to it.
- OperationExecutor.Add: an index past the end of a list fails with "Could not find item N in the collection", the message `remove` and `replace` use. The documented behaviour only says the failure surfaces as list implementations signal it, and no test fixes the message.
- OperationExecutor.Move: the destination is a location resolved before the removal at the source, as a list of steps from the root. When the removal shifts a list the destination's steps go through, the steps then reach a different element than the object the source resolved (moving "/Items/0" to "/Items/1/Other" writes into the third item, not the second), or reach nothing, and the write then changes nothing and reports success. The source holds a reference to the destination object and writes into it. `MovePlacesValue` therefore requires the destination apart from the source, and covers a destination property only.
- OperationExecutor.CopyPlacesValue: covers a destination property only; for a list destination a copy is `Add` of the serialized source value, which `AddInserts` and `AddToListFailsIff` describe.
- OperationExecutor.MoveResetsSource: covers a move out of a property only; a move out of a list element is covered only through `RemoveDeletesElement` and `AddFrame` separately.
- Scenarios.MoveOfChildIntoNameFails: states only the result of the run, not the graph it leaves, because the move implementation is not part of this model: what a failed move leaves behind follows from the model's order (read, remove, then assign), which the test does not check.
