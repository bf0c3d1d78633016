/**
 * The repository's own test cases, replayed on the model: the
 * `ExampleTarget` fixture as a graph value, and the outcome each test
 * expects, proved of the resolver and of whole patch runs.  Each concrete
 * case is reduced to a general lemma about paths of one to four segments,
 * fed with the facts of the fixture.
 */
module Scenarios {
  import opened Wrappers
  import opened ObjectModel
  import opened IntParse
  import opened Models
  import opened PathParser
  import opened DocumentParser
  import opened OperationExecutor
  import opened JsonPatchExecutor

  /** An `ExampleTargetChild`, whose `ChildCantSetMe` has no setter. */
  function ExampleTargetChild(childName: Value): Value {
    Obj("ExampleTargetChild", map[
      "ChildName" := Field(childName, TString, true),
      "ChildCantSetMe" := Field(Str("I have no setter"), TString, false)])
  }

  /** An `ExampleTarget`, whose `CantSetMe` has no setter. */
  function ExampleTarget(name: Value, valueType: int, child: Value, stringList: Value, intList: Value, childList: Value): Value {
    Obj("ExampleTarget", map[
      "Name" := Field(name, TString, true),
      "CantSetMe" := Field(Str("I have no setter"), TString, false),
      "ValueType" := Field(Int(valueType), TInt, true),
      "Child" := Field(child, TClass("ExampleTargetChild"), true),
      "StringList" := Field(stringList, TList(TString), true),
      "IntList" := Field(intList, TList(TInt), true),
      "ChildList" := Field(childList, TList(TClass("ExampleTargetChild")), true)])
  }

  /** `new ExampleTarget()`. */
  const Fresh := ExampleTarget(Null, 0, Null, Null, Null, Null)

  /** A list of children named as given. */
  function Children(names: seq<string>): Value {
    List(TClass("ExampleTargetChild"), seq(|names|, i requires 0 <= i < |names| => ExampleTargetChild(Str(names[i]))))
  }

  /** The properties of the fixture, and one it does not have. */
  lemma TargetFields(name: Value, valueType: int, child: Value, stringList: Value, intList: Value, childList: Value)
    ensures var t := ExampleTarget(name, valueType, child, stringList, intList, childList);
      && GetProperty(t, "Name") == Some(Field(name, TString, true))
      && GetProperty(t, "CantSetMe") == Some(Field(Str("I have no setter"), TString, false))
      && GetProperty(t, "ValueType") == Some(Field(Int(valueType), TInt, true))
      && GetProperty(t, "Child") == Some(Field(child, TClass("ExampleTargetChild"), true))
      && GetProperty(t, "StringList") == Some(Field(stringList, TList(TString), true))
      && GetProperty(t, "IntList") == Some(Field(intList, TList(TInt), true))
      && GetProperty(t, "ChildList") == Some(Field(childList, TList(TClass("ExampleTargetChild")), true))
      && GetProperty(t, "DoesntExist") == None
  {
  }

  lemma ChildFields(childName: Value)
    ensures GetProperty(ExampleTargetChild(childName), "ChildName") == Some(Field(childName, TString, true))
    ensures GetProperty(ExampleTargetChild(childName), "ChildCantSetMe") == Some(Field(Str("I have no setter"), TString, false))
    ensures GetProperty(ExampleTargetChild(childName), "L") == None
  {
  }

  /** The indices the test cases use. */
  lemma SmallNumbers()
    ensures TryParseInt("0") == Some(0) && TryParseInt("1") == Some(1) && TryParseInt("2") == Some(2)
    ensures TryParseInt("89") == Some(89)
    ensures IntToString(0) == "0" && IntToString(1) == "1" && IntToString(2) == "2" && IntToString(89) == "89"
  {
    ParseRendered(0);
    assert IntToString(0) == "0";
    ParseRendered(1);
    assert IntToString(1) == "1";
    ParseRendered(2);
    assert IntToString(2) == "2";
    ParseRendered(89);
    assert IntToString(89) == "89";
  }

  /** A path written as one slash before slash-free parts has those parts as segments. */
  lemma SegmentsOfPath(path: string, parts: seq<string>)
    requires |parts| >= 1 && forall i :: 0 <= i < |parts| ==> '/' !in parts[i]
    requires parts[0] != ""
    requires path == "/" + Join(parts)
    ensures Segments(path) == parts
  {
    SegmentsOf(1, parts);
    assert Slashes(1) == "/";
  }

  /** A path of one property name is checked against the root alone. */
  lemma ResolveOne(path: string, root: Value, a: string)
    requires Segments(path) == [a] && TryParseInt(a).None? && root.Obj?
    ensures Resolve(path, root) ==
      if GetProperty(root, a).None? then Failure(NotFound(path))
      else if !GetProperty(root, a).value.settable then Failure(CannotSet(path))
      else Success(JsonPatchPath([], a, false))
  {
  }

  /** A path of two segments, the first a property name: one step, then the checks on the second. */
  lemma ResolveTwo(path: string, root: Value, a: string, b: string)
    requires Segments(path) == [a, b] && TryParseInt(a).None? && GetProperty(root, a).Some?
    ensures var f := GetProperty(root, a).value;
      Resolve(path, root) ==
        if f.value.Null? then Failure(IsNull(path, a))
        else if TryParseInt(b).Some? then
          if !IsCollectionType(f.value) then Failure(NotCollection(path, a))
          else Success(JsonPatchPath([Prop(a)], b, true))
        else if GetProperty(f.value, b).None? then Failure(NotFound(path))
        else if !GetProperty(f.value, b).value.settable then Failure(CannotSet(path))
        else Success(JsonPatchPath([Prop(a)], b, false))
    ensures Get(root, [Prop(a)]) == Some(GetProperty(root, a).value.value)
  {
    var segs := Segments(path);
    var f := GetProperty(root, a).value;
    ResolveUnfold(path, root);
    assert Walk(path, segs, root, 0) == Success(Cursor(root, []));
    assert ParentName(segs, 1) == a && ParentName(segs, 0) == "";
    assert Walk(path, segs, root, 1) == StepInto(path, Cursor(root, []), a, "");
    assert [] + [Prop(a)] == [Prop(a)];
    assert [Prop(a)][0] == Prop(a) && [Prop(a)][1..] == [];
    if !f.value.Null? {
      assert Walk(path, segs, root, 1) == Success(Cursor(f.value, [Prop(a)]));
      assert ParentCursor(path, segs, root) == Some(Cursor(root, []));
      assert Resolve(path, root) == Finish(path, Some(Cursor(root, [])), a, Cursor(f.value, [Prop(a)]), b);
    }
  }

  /** An index applied to a property that holds no list, in the middle of a path of three segments. */
  lemma ResolveThreeNotCollection(path: string, root: Value, a: string, b: string, c: string)
    requires Segments(path) == [a, b, c] && TryParseInt(a).None? && GetProperty(root, a).Some?
    requires !GetProperty(root, a).value.value.Null? && !IsCollectionType(GetProperty(root, a).value.value)
    requires TryParseInt(b).Some?
    ensures Resolve(path, root) == Failure(NotCollection(path, a))
  {
    var segs := Segments(path);
    var f := GetProperty(root, a).value;
    ResolveUnfold(path, root);
    assert Walk(path, segs, root, 0) == Success(Cursor(root, []));
    assert ParentName(segs, 1) == a && ParentName(segs, 0) == "";
    assert [] + [Prop(a)] == [Prop(a)];
    assert Walk(path, segs, root, 1) == Success(Cursor(f.value, [Prop(a)]));
    assert Walk(path, segs, root, 2) == StepInto(path, Cursor(f.value, [Prop(a)]), b, a);
    assert Walk(path, segs, root, 2) == Failure(NotCollection(path, a));
  }

  /**
   * A property, an index into the list it holds, a property of that item,
   * and an index applied to that property although it holds no list.
   */
  lemma ResolveFourNotCollection(path: string, root: Value, a: string, b: string, c: string, d: string, i: int)
    requires Segments(path) == [a, b, c, d] && TryParseInt(a).None? && GetProperty(root, a).Some?
    requires GetProperty(root, a).value.value.List?
    requires TryParseInt(b) == Some(i) && 0 <= i < |GetProperty(root, a).value.value.items|
    requires TryParseInt(c).None? && GetProperty(GetProperty(root, a).value.value.items[i], c).Some?
    requires !IsCollectionType(GetProperty(GetProperty(root, a).value.value.items[i], c).value.value)
    requires !GetProperty(GetProperty(root, a).value.value.items[i], c).value.value.Null?
    requires TryParseInt(d).Some?
    ensures Resolve(path, root) == Failure(NotCollection(path, c))
  {
    var segs := Segments(path);
    var list := GetProperty(root, a).value.value;
    var item := list.items[i];
    var g := GetProperty(item, c).value;
    ResolveUnfold(path, root);
    assert Walk(path, segs, root, 0) == Success(Cursor(root, []));
    assert ParentName(segs, 0) == "" && ParentName(segs, 1) == a && ParentName(segs, 2) == b && ParentName(segs, 3) == c;
    assert [] + [Prop(a)] == [Prop(a)];
    assert Walk(path, segs, root, 1) == Success(Cursor(list, [Prop(a)]));
    assert Walk(path, segs, root, 2) == StepInto(path, Cursor(list, [Prop(a)]), b, a);
    assert [Prop(a)] + [Index(i)] == [Prop(a), Index(i)];
    assert [Prop(a), Index(i)] + [Prop(c)] == [Prop(a), Index(i), Prop(c)];
    assert Walk(path, segs, root, 2) == Success(Cursor(item, [Prop(a), Index(i)]));
    assert Walk(path, segs, root, 3) == StepInto(path, Cursor(item, [Prop(a), Index(i)]), c, b);
    assert Walk(path, segs, root, 3) == Success(Cursor(g.value, [Prop(a), Index(i), Prop(c)]));
    assert ParentCursor(path, segs, root) == Some(Cursor(item, [Prop(a), Index(i)]));
    assert Resolve(path, root) == Finish(path, Some(Cursor(item, [Prop(a), Index(i)])), c,
                                         Cursor(g.value, [Prop(a), Index(i), Prop(c)]), d);
  }

  /** A property, an index into the list it holds, and the checks on a property of that item. */
  lemma ResolveThroughList(path: string, root: Value, a: string, b: string, c: string, i: int)
    requires Segments(path) == [a, b, c] && TryParseInt(a).None? && GetProperty(root, a).Some?
    requires GetProperty(root, a).value.value.List?
    requires TryParseInt(b) == Some(i) && 0 <= i < |GetProperty(root, a).value.value.items|
    requires TryParseInt(c).None? && GetProperty(root, a).value.value.items[i].Obj?
    ensures var item := GetProperty(root, a).value.value.items[i];
      Resolve(path, root) ==
        if GetProperty(item, c).None? then Failure(NotFound(path))
        else if !GetProperty(item, c).value.settable then Failure(CannotSet(path))
        else Success(JsonPatchPath([Prop(a), Index(i)], c, false))
    ensures Get(root, [Prop(a), Index(i)]) == Some(GetProperty(root, a).value.value.items[i])
  {
    var segs := Segments(path);
    var list := GetProperty(root, a).value.value;
    var item := list.items[i];
    ResolveUnfold(path, root);
    assert Walk(path, segs, root, 0) == Success(Cursor(root, []));
    assert ParentName(segs, 0) == "" && ParentName(segs, 1) == a && ParentName(segs, 2) == b;
    assert [] + [Prop(a)] == [Prop(a)];
    assert Walk(path, segs, root, 1) == Success(Cursor(list, [Prop(a)]));
    assert Walk(path, segs, root, 2) == StepInto(path, Cursor(list, [Prop(a)]), b, a);
    assert [Prop(a)] + [Index(i)] == [Prop(a), Index(i)];
    assert Walk(path, segs, root, 2) == Success(Cursor(item, [Prop(a), Index(i)]));
    assert ParentCursor(path, segs, root) == Some(Cursor(list, [Prop(a)]));
    assert Resolve(path, root) == Finish(path, Some(Cursor(list, [Prop(a)])), b, Cursor(item, [Prop(a), Index(i)]), c);
    assert [Prop(a), Index(i)][0] == Prop(a) && [Prop(a), Index(i)][1..] == [Index(i)];
    assert [Index(i)][0] == Index(i) && [Index(i)][1..] == [];
    assert Get(list, [Index(i)]) == Get(item, []);
  }

  /** A path whose second segment names no property of a non-null first one dereferences null. */
  lemma ResolveMissingSecond(path: string, root: Value, a: string, b: string)
    requires |Segments(path)| >= 3 && Segments(path)[0] == a && Segments(path)[1] == b
    requires TryParseInt(a).None? && GetProperty(root, a).Some? && !GetProperty(root, a).value.value.Null?
    requires TryParseInt(b).None? && GetProperty(GetProperty(root, a).value.value, b).None?
    ensures Resolve(path, root) == Failure(NullReference)
  {
    var segs := Segments(path);
    var v := GetProperty(root, a).value.value;
    assert Walk(path, segs, root, 0) == Success(Cursor(root, []));
    assert ParentName(segs, 0) == "" && ParentName(segs, 1) == a;
    assert Walk(path, segs, root, 1) == Success(Cursor(v, [] + [Prop(a)]));
    assert Walk(path, segs, root, 2) == Failure(NullReference);
    ResolveOfFailedWalk(path, root, 2);
  }

  lemma MissingPropertyIsNotFound()
    ensures Resolve("/DoesntExist", Fresh) == Failure(NotFound("/DoesntExist"))
  {
    SegmentsOfPath("/DoesntExist", ["DoesntExist"]);
    NameIsNotNumber("DoesntExist", 0);
    TargetFields(Null, 0, Null, Null, Null, Null);
    ResolveOne("/DoesntExist", Fresh, "DoesntExist");
  }

  lemma PropertyWithoutSetterCannotBeSet()
    ensures Resolve("/CantSetMe", Fresh) == Failure(CannotSet("/CantSetMe"))
  {
    SegmentsOfPath("/CantSetMe", ["CantSetMe"]);
    NameIsNotNumber("CantSetMe", 0);
    TargetFields(Null, 0, Null, Null, Null, Null);
    ResolveOne("/CantSetMe", Fresh, "CantSetMe");
  }

  lemma NullChildIsReported()
    ensures Resolve("/Child/ChildName", Fresh) == Failure(IsNull("/Child/ChildName", "Child"))
  {
    SegmentsOfPath("/Child/ChildName", ["Child", "ChildName"]);
    NameIsNotNumber("Child", 0);
    TargetFields(Null, 0, Null, Null, Null, Null);
    ResolveTwo("/Child/ChildName", Fresh, "Child", "ChildName");
  }

  lemma NestedPropertyIsFound()
    ensures var child := ExampleTargetChild(Str("Peter Pan "));
      var target := ExampleTarget(Null, 0, child, Null, Null, Null);
      var r := Resolve("/Child/ChildName", target);
      r == Success(JsonPatchPath([Prop("Child")], "ChildName", false)) && TargetObject(target, r.value) == Some(child)
  {
    var child := ExampleTargetChild(Str("Peter Pan "));
    var target := ExampleTarget(Null, 0, child, Null, Null, Null);
    SegmentsOfPath("/Child/ChildName", ["Child", "ChildName"]);
    NameIsNotNumber("Child", 0);
    NameIsNotNumber("ChildName", 0);
    TargetFields(Null, 0, child, Null, Null, Null);
    ChildFields(Str("Peter Pan "));
    ResolveTwo("/Child/ChildName", target, "Child", "ChildName");
  }

  lemma NestedPropertyWithoutSetterCannotBeSet()
    ensures Resolve("/Child/ChildCantSetMe", ExampleTarget(Null, 0, ExampleTargetChild(Null), Null, Null, Null))
         == Failure(CannotSet("/Child/ChildCantSetMe"))
  {
    var child := ExampleTargetChild(Null);
    SegmentsOfPath("/Child/ChildCantSetMe", ["Child", "ChildCantSetMe"]);
    NameIsNotNumber("Child", 0);
    NameIsNotNumber("ChildCantSetMe", 0);
    TargetFields(Null, 0, child, Null, Null, Null);
    ChildFields(Null);
    ResolveTwo("/Child/ChildCantSetMe", ExampleTarget(Null, 0, child, Null, Null, Null), "Child", "ChildCantSetMe");
  }

  lemma ListItemIsFound()
    ensures var list := List(TString, [Str("foo"), Str("bar"), Str("baz")]);
      var target := ExampleTarget(Null, 0, Null, list, Null, Null);
      var r := Resolve("/StringList/1", target);
      r == Success(JsonPatchPath([Prop("StringList")], "1", true)) && TargetObject(target, r.value) == Some(list)
  {
    var list := List(TString, [Str("foo"), Str("bar"), Str("baz")]);
    var target := ExampleTarget(Null, 0, Null, list, Null, Null);
    SegmentsOfPath("/StringList/1", ["StringList", "1"]);
    NameIsNotNumber("StringList", 0);
    TargetFields(Null, 0, Null, list, Null, Null);
    SmallNumbers();
    ResolveTwo("/StringList/1", target, "StringList", "1");
  }

  lemma PropertyOfListItemIsFound()
    ensures var children := Children(["Item 1", "Item 2", "Item 3"]);
      var target := ExampleTarget(Null, 0, Null, Null, Null, children);
      var r := Resolve("/ChildList/1/ChildName", target);
      r == Success(JsonPatchPath([Prop("ChildList"), Index(1)], "ChildName", false))
      && TargetObject(target, r.value) == Some(children.items[1])
  {
    var children := Children(["Item 1", "Item 2", "Item 3"]);
    var target := ExampleTarget(Null, 0, Null, Null, Null, children);
    SegmentsOfPath("/ChildList/1/ChildName", ["ChildList", "1", "ChildName"]);
    NameIsNotNumber("ChildList", 0);
    NameIsNotNumber("ChildName", 0);
    SmallNumbers();
    TargetFields(Null, 0, Null, Null, Null, children);
    assert children.items[1] == ExampleTargetChild(Str("Item 2"));
    ChildFields(Str("Item 2"));
    ResolveThroughList("/ChildList/1/ChildName", target, "ChildList", "1", "ChildName", 1);
  }

  lemma ChildNameIndexSegments()
    ensures Segments("/ChildList/1/ChildName/2") == ["ChildList", "1", "ChildName", "2"]
  {
    SegmentsOfPath("/ChildList/1/ChildName/2", ["ChildList", "1", "ChildName", "2"]);
  }

  lemma IndexIntoPropertyIsNotCollection()
    ensures Resolve("/ChildList/1/ChildName/2", ExampleTarget(Null, 0, Null, Null, Null, Children(["Item 1", "Item 2", "Item 3"])))
         == Failure(NotCollection("/ChildList/1/ChildName/2", "ChildName"))
  {
    var children := Children(["Item 1", "Item 2", "Item 3"]);
    ChildNameIndexSegments();
    NameIsNotNumber("ChildList", 0);
    NameIsNotNumber("ChildName", 0);
    SmallNumbers();
    TargetFields(Null, 0, Null, Null, Null, children);
    assert children.items[1] == ExampleTargetChild(Str("Item 2"));
    ChildFields(Str("Item 2"));
    ResolveFourNotCollection("/ChildList/1/ChildName/2", ExampleTarget(Null, 0, Null, Null, Null, children),
                             "ChildList", "1", "ChildName", "2", 1);
  }

  lemma IndexIntoStringIsNotCollection()
    ensures Resolve("/Name/1/Something", ExampleTarget(Str("Hello"), 0, Null, Null, Null, Null))
         == Failure(NotCollection("/Name/1/Something", "Name"))
  {
    SegmentsOfPath("/Name/1/Something", ["Name", "1", "Something"]);
    NameIsNotNumber("Name", 0);
    SmallNumbers();
    TargetFields(Str("Hello"), 0, Null, Null, Null, Null);
    ResolveThreeNotCollection("/Name/1/Something", ExampleTarget(Str("Hello"), 0, Null, Null, Null, Null),
                              "Name", "1", "Something");
  }

  /** The append marker is not a number, so the resolver looks for a property named "-" on the list. */
  lemma AppendMarkerIsNotFound()
    ensures Resolve("/IntList/-", ExampleTarget(Null, 0, Null, Null, List(TInt, [Int(3), Int(4), Int(5)]), Null))
         == Failure(NotFound("/IntList/-"))
  {
    var list := List(TInt, [Int(3), Int(4), Int(5)]);
    SegmentsOfPath("/IntList/-", ["IntList", "-"]);
    NameIsNotNumber("IntList", 0);
    SignAloneIsNotNumber();
    TargetFields(Null, 0, Null, Null, list, Null);
    ResolveTwo("/IntList/-", ExampleTarget(Null, 0, Null, Null, list, Null), "IntList", "-");
  }

  /** One document operation with no "value" and no "from". */
  function RemoveObject(path: string): OperationObject {
    map["op" := JString("remove"), "path" := JString(path)]
  }

  /** A document of one remove operation runs that removal and reports its outcome. */
  lemma PatchOneRemove(codec: Codec, path: string, root: Value, p: JsonPatchPath)
    requires Resolve(path, root) == Success(p)
    ensures var e := RemoveSpec(root, p);
      PatchSpec(codec, Elements([RemoveObject(path)]), root) ==
        if e.result.Ok? then Patched(Succeeded, e.root)
        else Patched(JsonPatchExecutor.Failure(OperationFailed, e.result.message), e.root)
  {
    var d := RemoveObject(path);
    var op := JsonPatchOperation(remove, path, None, None);
    assert Deserialize(d) == Success(op);
    assert [d][0] == d && [d][1..] == [] && [op] + [] == [op];
    assert DeserializeEach([]) == Success([]);
    assert DeserializeJsonPatchRequest(Elements([d])) == Success([op]);
    ResolvedPathIsValid(path, root);
    assert Locate(Some(path), root) == Result.Success(p);
    var e := RemoveSpec(root, p);
    assert ApplyOperation(codec, op, root) == Outcome(e, OperationFailed);
    assert [op][0] == op && [op][1..] == [];
    if e.result.Ok? {
      assert ApplyOperations(codec, [op], root) == ApplyOperations(codec, [], e.root);
    } else {
      assert ApplyOperations(codec, [op], root) == Patched(JsonPatchExecutor.Failure(OperationFailed, e.result.message), e.root);
    }
  }

  /** Reading and removing item `i` of the fixture's child list, inside or outside the list. */
  lemma RemoveChildListItem(name: Value, valueType: int, child: Value, items: seq<Value>, i: int)
    requires MinInt32 <= i <= MaxInt32
    ensures var root := ExampleTarget(name, valueType, child, Null, Null, List(TClass("ExampleTargetChild"), items));
      var p := JsonPatchPath([Prop("ChildList")], IntToString(i), true);
      && (0 <= i < |items| ==> Read(root, p) == Success(items[i]))
      && RemoveSpec(root, p) ==
        if 0 <= i < |items|
        then Exec(Ok, ExampleTarget(name, valueType, child, Null, Null, List(TClass("ExampleTargetChild"), items[..i] + items[i + 1..])))
        else Exec(Fail(NotFoundMessage(IntToString(i))), root)
  {
    var list := List(TClass("ExampleTargetChild"), items);
    var root := ExampleTarget(name, valueType, child, Null, Null, list);
    var p := JsonPatchPath([Prop("ChildList")], IntToString(i), true);
    ParseRendered(i);
    TargetFields(name, valueType, child, Null, Null, list);
    assert [Prop("ChildList")][0] == Prop("ChildList") && [Prop("ChildList")][1..] == [];
    assert TargetObject(root, p) == Some(list);
    if 0 <= i < |items| {
      var after := list.(items := items[..i] + items[i + 1..]);
      assert RemoveSpec(root, p) == Exec(Ok, Set(root, [Prop("ChildList")], after));
      assert Set(root, [Prop("ChildList")], after) == ExampleTarget(name, valueType, child, Null, Null, after);
    }
  }

  /** An index into the fixture's child list resolves to that list, whatever the list holds. */
  lemma ChildListIndexResolves(path: string, name: Value, valueType: int, child: Value, items: seq<Value>, s: string)
    requires Segments(path) == ["ChildList", s] && TryParseInt(s).Some?
    ensures Resolve(path, ExampleTarget(name, valueType, child, Null, Null, List(TClass("ExampleTargetChild"), items)))
         == Success(JsonPatchPath([Prop("ChildList")], s, true))
  {
    var list := List(TClass("ExampleTargetChild"), items);
    NameIsNotNumber("ChildList", 0);
    TargetFields(name, valueType, child, Null, Null, list);
    ResolveTwo(path, ExampleTarget(name, valueType, child, Null, Null, list), "ChildList", s);
  }

  /** A document removing item `i` of the fixture's child list, written as `s`. */
  lemma RemoveFromChildList(codec: Codec, path: string, items: seq<Value>, s: string, i: int)
    requires Segments(path) == ["ChildList", s] && TryParseInt(s) == Some(i) && IntToString(i) == s
    ensures var root := ExampleTarget(Null, 0, Null, Null, Null, List(TClass("ExampleTargetChild"), items));
      PatchSpec(codec, Elements([RemoveObject(path)]), root) ==
        if 0 <= i < |items|
        then Patched(Succeeded, ExampleTarget(Null, 0, Null, Null, Null, List(TClass("ExampleTargetChild"), items[..i] + items[i + 1..])))
        else Patched(JsonPatchExecutor.Failure(OperationFailed, NotFoundMessage(s)), root)
  {
    var root := ExampleTarget(Null, 0, Null, Null, Null, List(TClass("ExampleTargetChild"), items));
    ChildListIndexResolves(path, Null, 0, Null, items, s);
    RemoveChildListItem(Null, 0, Null, items, i);
    PatchOneRemove(codec, path, root, JsonPatchPath([Prop("ChildList")], s, true));
  }

  lemma PastTheEndMessage()
    ensures NotFoundMessage("89") == "Could not find item 89 in the collection"
  {
  }

  /** Removing an index past the end fails as an operation, naming the index, and changes nothing. */
  lemma RemovePastTheEndFails(codec: Codec)
    ensures var target := ExampleTarget(Null, 0, Null, Null, Null, Children(["Child 1", "Child 2"]));
      PatchSpec(codec, Elements([RemoveObject("/ChildList/89")]), target)
        == Patched(JsonPatchExecutor.Failure(OperationFailed, "Could not find item 89 in the collection"), target)
  {
    var children := Children(["Child 1", "Child 2"]);
    SegmentsOfPath("/ChildList/89", ["ChildList", "89"]);
    SmallNumbers();
    PastTheEndMessage();
    RemoveFromChildList(codec, "/ChildList/89", children.items, "89", 89);
  }

  /** A document removing item 0 of the fixture's child list. */
  lemma RemoveHeadOfChildList(codec: Codec, path: string, items: seq<Value>)
    requires Segments(path) == ["ChildList", "0"] && |items| > 0
    ensures PatchSpec(codec, Elements([RemoveObject(path)]), ExampleTarget(Null, 0, Null, Null, Null, List(TClass("ExampleTargetChild"), items)))
         == Patched(Succeeded, ExampleTarget(Null, 0, Null, Null, Null, List(TClass("ExampleTargetChild"), items[1..])))
  {
    SmallNumbers();
    RemoveFromChildList(codec, path, items, "0", 0);
    assert items[..0] + items[1..] == items[1..];
  }

  lemma RemainingChildren()
    ensures |Children(["Child 1", "Child 2"]).items| == 2
    ensures ExampleTarget(Null, 0, Null, Null, Null, List(TClass("ExampleTargetChild"), Children(["Child 1", "Child 2"]).items[1..]))
         == ExampleTarget(Null, 0, Null, Null, Null, Children(["Child 2"]))
  {
    assert Children(["Child 1", "Child 2"]).items[1..] == Children(["Child 2"]).items;
  }

  /** Removing the first child leaves the second alone in the list. */
  lemma RemoveFirstChild(codec: Codec)
    ensures var target := ExampleTarget(Null, 0, Null, Null, Null, Children(["Child 1", "Child 2"]));
      PatchSpec(codec, Elements([RemoveObject("/ChildList/0")]), target)
        == Patched(Succeeded, ExampleTarget(Null, 0, Null, Null, Null, Children(["Child 2"])))
  {
    var children := Children(["Child 1", "Child 2"]);
    SegmentsOfPath("/ChildList/0", ["ChildList", "0"]);
    RemainingChildren();
    RemoveHeadOfChildList(codec, "/ChildList/0", children.items);
  }

  /** A document of one operation runs that operation and reports how it ended. */
  lemma PatchOne(codec: Codec, op: JsonPatchOperation, root: Value)
    ensures var s := ApplyOperation(codec, op, root);
      PatchSpec(codec, Elements([ToObject(op)]), root) == if s.Continue? then Patched(Succeeded, s.root) else Patched(s.result, s.root)
  {
    var d := ToObject(op);
    DeserializeToObject(op);
    assert [d][0] == d && [d][1..] == [] && [op] + [] == [op];
    assert DeserializeEach([]) == Success([]);
    assert DeserializeJsonPatchRequest(Elements([d])) == Success([op]);
    assert [op][0] == op && [op][1..] == [];
    var s := ApplyOperation(codec, op, root);
    if s.Continue? {
      assert ApplyOperations(codec, [op], root) == ApplyOperations(codec, [], s.root);
    } else {
      assert ApplyOperations(codec, [op], root) == Patched(s.result, s.root);
    }
  }

  /** A document of two operations runs the second only when the first lets the run continue. */
  lemma PatchTwo(codec: Codec, op1: JsonPatchOperation, op2: JsonPatchOperation, root: Value)
    ensures var s1 := ApplyOperation(codec, op1, root);
      var s2 := ApplyOperation(codec, op2, s1.root);
      PatchSpec(codec, Elements([ToObject(op1), ToObject(op2)]), root) ==
        if s1.Stop? then Patched(s1.result, s1.root)
        else if s2.Continue? then Patched(Succeeded, s2.root)
        else Patched(s2.result, s2.root)
  {
    var d1 := ToObject(op1);
    var d2 := ToObject(op2);
    DeserializeToObject(op1);
    DeserializeToObject(op2);
    assert [d1, d2][0] == d1 && [d1, d2][1..] == [d2];
    assert [d2][0] == d2 && [d2][1..] == [];
    assert DeserializeEach([]) == Success([]);
    assert [op2] + [] == [op2];
    assert DeserializeEach([d2]) == Success([op2]);
    assert [op1] + [op2] == [op1, op2];
    assert DeserializeJsonPatchRequest(Elements([d1, d2])) == Success([op1, op2]);
    assert [op1, op2] + [] == [op1, op2];
    ApplyOperationsAppend(codec, [op1], [op2], root);
    var s1 := ApplyOperation(codec, op1, root);
    assert [op1][0] == op1 && [op1][1..] == [];
    if s1.Continue? {
      assert ApplyOperations(codec, [op1], root) == ApplyOperations(codec, [], s1.root);
      assert [op2][0] == op2 && [op2][1..] == [];
      var s2 := ApplyOperation(codec, op2, s1.root);
      if s2.Continue? {
        assert ApplyOperations(codec, [op2], s1.root) == ApplyOperations(codec, [], s2.root);
      }
    }
  }

  /** An operation other than move and copy, on a path that resolves, runs its verb there. */
  lemma OperationStep(codec: Codec, op: JsonPatchOperation, root: Value, p: JsonPatchPath)
    requires Resolve(op.path, root) == Success(p) && op.op != move && op.op != copy
    ensures ApplyOperation(codec, op, root) ==
      match op.op
      case replace => Outcome(Replace(codec, root, p, op.value), OperationFailed)
      case add => Outcome(Add(codec, root, p, op.value), OperationFailed)
      case remove => Outcome(RemoveSpec(root, p), OperationFailed)
      case test => (if Test(codec, root, p, op.value).Ok? then Continue(root)
                    else Stop(JsonPatchExecutor.Failure(TestFailed, Test(codec, root, p, op.value).message), root))
  {
    ResolvedPathIsValid(op.path, root);
    assert Locate(Some(op.path), root) == Result.Success(p);
  }

  /** A remove on a path that resolves, whose removal succeeds, continues from what the removal left. */
  lemma RemoveStep(codec: Codec, op: JsonPatchOperation, root: Value, p: JsonPatchPath, after: Value)
    requires Resolve(op.path, root) == Success(p) && op.op == remove && RemoveSpec(root, p) == Exec(Ok, after)
    ensures ApplyOperation(codec, op, root) == Continue(after)
  {
    OperationStep(codec, op, root, p);
  }

  /** A copy whose path resolves and whose "from" does not stops with the "from" error. */
  lemma CopyFromStep(codec: Codec, path: string, from: string, root: Value)
    requires Resolve(path, root).Success? && Resolve(from, root).Failure?
    ensures ApplyOperation(codec, JsonPatchOperation(copy, path, None, Some(from)), root)
         == Stop(JsonPatchExecutor.Failure(CouldNotParseFrom, Message(Resolve(from, root).error)), root)
  {
    ResolvedPathIsValid(path, root);
  }

  /** The target the executor tests start from. */
  function Seeded(valueType: int): Value {
    ExampleTarget(Null, valueType, ExampleTargetChild(Str("I am a child")), Null, Null, Null)
  }

  lemma SeededFields(valueType: int)
    ensures GetProperty(Seeded(valueType), "ValueType") == Some(Field(Int(valueType), TInt, true))
    ensures GetProperty(Seeded(valueType), "Name") == Some(Field(Null, TString, true))
    ensures GetProperty(Seeded(valueType), "Child") == Some(Field(ExampleTargetChild(Str("I am a child")), TClass("ExampleTargetChild"), true))
    ensures GetProperty(Seeded(valueType), "ChildName") == None
  {
  }

  lemma ValueTypeSegments()
    ensures Segments("/ValueType") == ["ValueType"]
  {
    SegmentsOfPath("/ValueType", ["ValueType"]);
  }

  lemma ValueTypeResolves(path: string, name: Value, valueType: int, child: Value, childList: Value)
    requires Segments(path) == ["ValueType"]
    ensures Resolve(path, ExampleTarget(name, valueType, child, Null, Null, childList)) == Success(JsonPatchPath([], "ValueType", false))
  {
    TargetFields(name, valueType, child, Null, Null, childList);
    NameIsNotNumber("ValueType", 0);
    ResolveOne(path, ExampleTarget(name, valueType, child, Null, Null, childList), "ValueType");
  }

  lemma NameSegments()
    ensures Segments("/Name") == ["Name"]
  {
    SegmentsOfPath("/Name", ["Name"]);
  }

  lemma NameResolves(path: string, name: Value, valueType: int, child: Value, childList: Value)
    requires Segments(path) == ["Name"]
    ensures Resolve(path, ExampleTarget(name, valueType, child, Null, Null, childList)) == Success(JsonPatchPath([], "Name", false))
  {
    TargetFields(name, valueType, child, Null, Null, childList);
    NameIsNotNumber("Name", 0);
    ResolveOne(path, ExampleTarget(name, valueType, child, Null, Null, childList), "Name");
  }

  lemma ChildNameIsNotFound(valueType: int)
    ensures Resolve("/ChildName", Seeded(valueType)) == Failure(NotFound("/ChildName"))
  {
    SeededFields(valueType);
    SegmentsOfPath("/ChildName", ["ChildName"]);
    NameIsNotNumber("ChildName", 0);
    ResolveOne("/ChildName", Seeded(valueType), "ChildName");
  }

  lemma ChildLSegments()
    ensures Segments("/Child/L/i/st/0") == ["Child", "L", "i", "st", "0"]
  {
    SegmentsOfPath("/Child/L/i/st/0", ["Child", "L", "i", "st", "0"]);
  }

  lemma MissingChildPropertyIsNullReference(valueType: int)
    ensures Resolve("/Child/L/i/st/0", Seeded(valueType)) == Failure(NullReference)
  {
    SeededFields(valueType);
    ChildFields(Str("I am a child"));
    ChildLSegments();
    NameIsNotNumber("Child", 0);
    NameIsNotNumber("L", 0);
    ResolveMissingSecond("/Child/L/i/st/0", Seeded(valueType), "Child", "L");
  }

  /** Reading and assigning `ValueType`. */
  lemma ValueTypeAccess(codec: Codec, name: Value, valueType: int, child: Value, childList: Value, j: Json, w: int)
    ensures var t := ExampleTarget(name, valueType, child, Null, Null, childList);
      var p := JsonPatchPath([], "ValueType", false);
      && Read(t, p) == Success(Int(valueType))
      && (codec.coerce(j, TInt) == Some(Int(w)) ==> Replace(codec, t, p, Some(j)) == Exec(Ok, ExampleTarget(name, w, child, Null, Null, childList)))
      && (codec.coerce(j, TInt).None? ==> Replace(codec, t, p, Some(j)) == Exec(Fail(ConversionMessage(codec, TInt)), t))
  {
    var t := ExampleTarget(name, valueType, child, Null, Null, childList);
    TargetFields(name, valueType, child, Null, Null, childList);
    assert t.(fields := t.fields["ValueType" := t.fields["ValueType"].(value := Int(w))]) == ExampleTarget(name, w, child, Null, Null, childList);
  }

  /** A replace assigns the coerced number. */
  lemma ReplaceAssignsNumber(codec: Codec)
    requires codec.coerce(JNumber(999), TInt) == Some(Int(999))
    ensures PatchSpec(codec, Elements([ToObject(JsonPatchOperation(replace, "/ValueType", Some(JNumber(999)), None))]), Seeded(1234))
         == Patched(Succeeded, Seeded(999))
  {
    var op := JsonPatchOperation(replace, "/ValueType", Some(JNumber(999)), None);
    ValueTypeSegments();
    ValueTypeResolves("/ValueType", Null, 1234, ExampleTargetChild(Str("I am a child")), Null);
    ValueTypeAccess(codec, Null, 1234, ExampleTargetChild(Str("I am a child")), Null, JNumber(999), 999);
    OperationStep(codec, op, Seeded(1234), JsonPatchPath([], "ValueType", false));
    PatchOne(codec, op, Seeded(1234));
  }

  lemma Int32Message(codec: Codec)
    requires codec.typeName(TInt) == "Int32"
    ensures ConversionMessage(codec, TInt) == "The value could not be converted to type Int32"
  {
  }

  /** A replace with a value that does not convert fails as an operation, naming the type, and changes nothing. */
  lemma ReplaceWithTextFails(codec: Codec)
    requires codec.coerce(JString("Hello"), TInt).None? && codec.typeName(TInt) == "Int32"
    ensures PatchSpec(codec, Elements([ToObject(JsonPatchOperation(replace, "/ValueType", Some(JString("Hello")), None))]), Seeded(1234))
         == Patched(JsonPatchExecutor.Failure(OperationFailed, "The value could not be converted to type Int32"), Seeded(1234))
  {
    var op := JsonPatchOperation(replace, "/ValueType", Some(JString("Hello")), None);
    Int32Message(codec);
    ValueTypeSegments();
    ValueTypeResolves("/ValueType", Null, 1234, ExampleTargetChild(Str("I am a child")), Null);
    ValueTypeAccess(codec, Null, 1234, ExampleTargetChild(Str("I am a child")), Null, JString("Hello"), 0);
    OperationStep(codec, op, Seeded(1234), JsonPatchPath([], "ValueType", false));
    PatchOne(codec, op, Seeded(1234));
  }

  /** A path through a property of the child that does not exist fails to resolve, and nothing runs. */
  lemma UnresolvablePathRunsNothing(codec: Codec)
    ensures PatchSpec(codec, Elements([ToObject(JsonPatchOperation(remove, "/Child/L/i/st/0", None, None))]), Seeded(1234))
         == Patched(JsonPatchExecutor.Failure(CouldNotParsePath, Message(NullReference)), Seeded(1234))
  {
    MissingChildPropertyIsNullReference(1234);
    PatchOne(codec, JsonPatchOperation(remove, "/Child/L/i/st/0", None, None), Seeded(1234));
  }

  /** A copy whose "from" names no property fails to resolve "from", after its path resolved. */
  lemma UnresolvableFromRunsNothing(codec: Codec)
    ensures PatchSpec(codec, Elements([ToObject(JsonPatchOperation(copy, "/Name", None, Some("/ChildName")))]), Seeded(1234))
         == Patched(JsonPatchExecutor.Failure(CouldNotParseFrom, Message(NotFound("/ChildName"))), Seeded(1234))
  {
    NameSegments();
    NameResolves("/Name", Null, 1234, ExampleTargetChild(Str("I am a child")), Null);
    ChildNameIsNotFound(1234);
    CopyFromStep(codec, "/Name", "/ChildName", Seeded(1234));
    PatchOne(codec, JsonPatchOperation(copy, "/Name", None, Some("/ChildName")), Seeded(1234));
  }

  /**
   * A test that does not match stops the run as `TestFailed`, naming the
   * property, and the replace after it never runs.
   */
  lemma FailedTestStopsTheRun(codec: Codec)
    requires codec.render(codec.serialize(Int(1234))) != codec.render(JNumber(909090))
    ensures PatchSpec(codec, Elements([ToObject(JsonPatchOperation(test, "/ValueType", Some(JNumber(909090)), None)),
                                       ToObject(JsonPatchOperation(replace, "/ValueType", Some(JNumber(999)), None))]), Seeded(1234))
         == Patched(JsonPatchExecutor.Failure(TestFailed, TestFailedMessage("ValueType")), Seeded(1234))
  {
    var p := JsonPatchPath([], "ValueType", false);
    ValueTypeSegments();
    ValueTypeResolves("/ValueType", Null, 1234, ExampleTargetChild(Str("I am a child")), Null);
    ValueTypeAccess(codec, Null, 1234, ExampleTargetChild(Str("I am a child")), Null, JNumber(999), 999);
    OperationStep(codec, JsonPatchOperation(test, "/ValueType", Some(JNumber(909090)), None), Seeded(1234), p);
    PatchTwo(codec, JsonPatchOperation(test, "/ValueType", Some(JNumber(909090)), None),
             JsonPatchOperation(replace, "/ValueType", Some(JNumber(999)), None), Seeded(1234));
  }

  /**
   * A test that matches lets the run continue, and the replace after it
   * assigns the number the document gives.
   */
  lemma PassedTestContinuesTheRun(codec: Codec)
    requires codec.render(codec.serialize(Int(1234))) == codec.render(JNumber(1234))
    requires codec.coerce(JNumber(999), TInt) == Some(Int(999))
    ensures PatchSpec(codec, Elements([ToObject(JsonPatchOperation(test, "/ValueType", Some(JNumber(1234)), None)),
                                       ToObject(JsonPatchOperation(replace, "/ValueType", Some(JNumber(999)), None))]), Seeded(1234))
         == Patched(Succeeded, Seeded(999))
  {
    var p := JsonPatchPath([], "ValueType", false);
    ValueTypeSegments();
    ValueTypeResolves("/ValueType", Null, 1234, ExampleTargetChild(Str("I am a child")), Null);
    ValueTypeAccess(codec, Null, 1234, ExampleTargetChild(Str("I am a child")), Null, JNumber(999), 999);
    OperationStep(codec, JsonPatchOperation(test, "/ValueType", Some(JNumber(1234)), None), Seeded(1234), p);
    OperationStep(codec, JsonPatchOperation(replace, "/ValueType", Some(JNumber(999)), None), Seeded(1234), p);
    PatchTwo(codec, JsonPatchOperation(test, "/ValueType", Some(JNumber(1234)), None),
             JsonPatchOperation(replace, "/ValueType", Some(JNumber(999)), None), Seeded(1234));
  }

  /** A move or a copy whose path and "from" both resolve runs its verb from the one to the other. */
  lemma TransferStep(codec: Codec, op: JsonPatchOperation, root: Value, p: JsonPatchPath, q: JsonPatchPath)
    requires (op.op == move || op.op == copy) && op.from.Some?
    requires Resolve(op.path, root) == Success(p) && Resolve(op.from.value, root) == Success(q)
    ensures ApplyOperation(codec, op, root) ==
      if op.op == move then Outcome(Move(codec, root, q, p), OperationFailed)
      else Outcome(Copy(codec, root, q, p), OperationFailed)
  {
    ResolvedPathIsValid(op.path, root);
    ResolvedPathIsValid(op.from.value, root);
    assert Locate(Some(op.path), root) == Result.Success(p);
    assert Locate(op.from, root) == Result.Success(q);
  }

  lemma ChildSegments()
    ensures Segments("/Child") == ["Child"]
  {
    SegmentsOfPath("/Child", ["Child"]);
  }

  lemma ChildResolves(path: string, name: Value, valueType: int, child: Value, childList: Value)
    requires Segments(path) == ["Child"]
    ensures Resolve(path, ExampleTarget(name, valueType, child, Null, Null, childList)) == Success(JsonPatchPath([], "Child", false))
  {
    TargetFields(name, valueType, child, Null, Null, childList);
    NameIsNotNumber("Child", 0);
    ResolveOne(path, ExampleTarget(name, valueType, child, Null, Null, childList), "Child");
  }

  lemma ChildNameSegments()
    ensures Segments("/Child/ChildName") == ["Child", "ChildName"]
  {
    SegmentsOfPath("/Child/ChildName", ["Child", "ChildName"]);
  }

  lemma ChildNameResolves(path: string, name: Value, valueType: int, childName: Value, childList: Value)
    requires Segments(path) == ["Child", "ChildName"]
    ensures Resolve(path, ExampleTarget(name, valueType, ExampleTargetChild(childName), Null, Null, childList))
         == Success(JsonPatchPath([Prop("Child")], "ChildName", false))
  {
    var t := ExampleTarget(name, valueType, ExampleTargetChild(childName), Null, Null, childList);
    TargetFields(name, valueType, ExampleTargetChild(childName), Null, Null, childList);
    ChildFields(childName);
    NameIsNotNumber("Child", 0);
    NameIsNotNumber("ChildName", 0);
    ResolveTwo(path, t, "Child", "ChildName");
  }

  /** Reading the child's name, and removing it, which leaves null behind. */
  lemma ChildNameAccess(name: Value, valueType: int, childName: Value, childList: Value)
    ensures var t := ExampleTarget(name, valueType, ExampleTargetChild(childName), Null, Null, childList);
      var p := JsonPatchPath([Prop("Child")], "ChildName", false);
      && Read(t, p) == Success(childName)
      && RemoveSpec(t, p) == Exec(Ok, ExampleTarget(name, valueType, ExampleTargetChild(Null), Null, Null, childList))
  {
    var child := ExampleTargetChild(childName);
    var t := ExampleTarget(name, valueType, child, Null, Null, childList);
    TargetFields(name, valueType, child, Null, Null, childList);
    ChildFields(childName);
    assert [Prop("Child")][0] == Prop("Child") && [Prop("Child")][1..] == [];
    assert TargetObject(t, JsonPatchPath([Prop("Child")], "ChildName", false)) == Some(child);
    var emptied := child.(fields := child.fields["ChildName" := child.fields["ChildName"].(value := Null)]);
    assert emptied == ExampleTargetChild(Null);
    assert t.(fields := t.fields["Child" := t.fields["Child"].(value := emptied)])
        == ExampleTarget(name, valueType, ExampleTargetChild(Null), Null, Null, childList);
  }

  /** Reading the child, and removing it, which leaves null behind. */
  lemma ChildAccess(name: Value, valueType: int, child: Value, childList: Value)
    ensures var t := ExampleTarget(name, valueType, child, Null, Null, childList);
      var p := JsonPatchPath([], "Child", false);
      && Read(t, p) == Success(child)
      && RemoveSpec(t, p) == Exec(Ok, ExampleTarget(name, valueType, Null, Null, Null, childList))
  {
    var t := ExampleTarget(name, valueType, child, Null, Null, childList);
    TargetFields(name, valueType, child, Null, Null, childList);
    assert t.(fields := t.fields["Child" := t.fields["Child"].(value := Null)])
        == ExampleTarget(name, valueType, Null, Null, Null, childList);
  }

  /** Assigning `Name`, through add or replace, when it holds null. */
  lemma NameAssign(codec: Codec, valueType: int, child: Value, childList: Value, j: Json)
    ensures var t := ExampleTarget(Null, valueType, child, Null, Null, childList);
      var p := JsonPatchPath([], "Name", false);
      && Add(codec, t, p, Some(j)) == Replace(codec, t, p, Some(j))
      && (codec.coerce(j, TString).Some? ==>
            Replace(codec, t, p, Some(j)) == Exec(Ok, ExampleTarget(codec.coerce(j, TString).value, valueType, child, Null, Null, childList)))
      && (codec.coerce(j, TString).None? ==> Replace(codec, t, p, Some(j)) == Exec(Fail(ConversionMessage(codec, TString)), t))
  {
    var t := ExampleTarget(Null, valueType, child, Null, Null, childList);
    TargetFields(Null, valueType, child, Null, Null, childList);
    if codec.coerce(j, TString).Some? {
      var v := codec.coerce(j, TString).value;
      assert t.(fields := t.fields["Name" := t.fields["Name"].(value := v)]) == ExampleTarget(v, valueType, child, Null, Null, childList);
    }
  }

  /** A move takes the child's name into `Name` and leaves null where it was. */
  lemma MoveTakesChildName(codec: Codec)
    requires codec.coerce(codec.serialize(Str("I am a child")), TString) == Some(Str("I am a child"))
    ensures PatchSpec(codec, Elements([ToObject(JsonPatchOperation(move, "/Name", None, Some("/Child/ChildName")))]), Seeded(0))
         == Patched(Succeeded, ExampleTarget(Str("I am a child"), 0, ExampleTargetChild(Null), Null, Null, Null))
  {
    var op := JsonPatchOperation(move, "/Name", None, Some("/Child/ChildName"));
    NameSegments();
    NameResolves("/Name", Null, 0, ExampleTargetChild(Str("I am a child")), Null);
    ChildNameSegments();
    ChildNameResolves("/Child/ChildName", Null, 0, Str("I am a child"), Null);
    TransferStep(codec, op, Seeded(0), JsonPatchPath([], "Name", false), JsonPatchPath([Prop("Child")], "ChildName", false));
    ChildNameAccess(Null, 0, Str("I am a child"), Null);
    NameAssign(codec, 0, ExampleTargetChild(Null), Null, codec.serialize(Str("I am a child")));
    PatchOne(codec, op, Seeded(0));
  }

  /** A copy puts the child's name into `Name` and keeps it where it was. */
  lemma CopyDuplicatesChildName(codec: Codec)
    requires codec.coerce(codec.serialize(Str("I am a child")), TString) == Some(Str("I am a child"))
    ensures PatchSpec(codec, Elements([ToObject(JsonPatchOperation(copy, "/Name", None, Some("/Child/ChildName")))]), Seeded(0))
         == Patched(Succeeded, ExampleTarget(Str("I am a child"), 0, ExampleTargetChild(Str("I am a child")), Null, Null, Null))
  {
    var op := JsonPatchOperation(copy, "/Name", None, Some("/Child/ChildName"));
    NameSegments();
    NameResolves("/Name", Null, 0, ExampleTargetChild(Str("I am a child")), Null);
    ChildNameSegments();
    ChildNameResolves("/Child/ChildName", Null, 0, Str("I am a child"), Null);
    TransferStep(codec, op, Seeded(0), JsonPatchPath([], "Name", false), JsonPatchPath([Prop("Child")], "ChildName", false));
    ChildNameAccess(Null, 0, Str("I am a child"), Null);
    NameAssign(codec, 0, ExampleTargetChild(Str("I am a child")), Null, codec.serialize(Str("I am a child")));
    PatchOne(codec, op, Seeded(0));
  }

  lemma StringMessage(codec: Codec)
    requires codec.typeName(TString) == "String"
    ensures ConversionMessage(codec, TString) == "The value could not be converted to type String"
  {
  }

  /** Moving the child object into the string `Name` fails as an operation, naming the type. */
  lemma MoveOfChildIntoNameFails(codec: Codec)
    requires codec.coerce(codec.serialize(ExampleTargetChild(Str("I am a child"))), TString).None?
    requires codec.typeName(TString) == "String"
    ensures PatchSpec(codec, Elements([ToObject(JsonPatchOperation(move, "/Name", None, Some("/Child")))]), Seeded(0)).result
         == JsonPatchExecutor.Failure(OperationFailed, "The value could not be converted to type String")
  {
    var op := JsonPatchOperation(move, "/Name", None, Some("/Child"));
    NameSegments();
    NameResolves("/Name", Null, 0, ExampleTargetChild(Str("I am a child")), Null);
    ChildSegments();
    ChildResolves("/Child", Null, 0, ExampleTargetChild(Str("I am a child")), Null);
    TransferStep(codec, op, Seeded(0), JsonPatchPath([], "Name", false), JsonPatchPath([], "Child", false));
    ChildAccess(Null, 0, ExampleTargetChild(Str("I am a child")), Null);
    NameAssign(codec, 0, Null, Null, codec.serialize(ExampleTargetChild(Str("I am a child"))));
    StringMessage(codec);
    PatchOne(codec, op, Seeded(0));
  }

  /** Copying the child object into the string `Name` fails as an operation and changes nothing. */
  lemma CopyOfChildIntoNameFails(codec: Codec)
    requires codec.coerce(codec.serialize(ExampleTargetChild(Str("I am a child"))), TString).None?
    requires codec.typeName(TString) == "String"
    ensures PatchSpec(codec, Elements([ToObject(JsonPatchOperation(copy, "/Name", None, Some("/Child")))]), Seeded(0))
         == Patched(JsonPatchExecutor.Failure(OperationFailed, "The value could not be converted to type String"), Seeded(0))
  {
    var op := JsonPatchOperation(copy, "/Name", None, Some("/Child"));
    NameSegments();
    NameResolves("/Name", Null, 0, ExampleTargetChild(Str("I am a child")), Null);
    ChildSegments();
    ChildResolves("/Child", Null, 0, ExampleTargetChild(Str("I am a child")), Null);
    TransferStep(codec, op, Seeded(0), JsonPatchPath([], "Name", false), JsonPatchPath([], "Child", false));
    ChildAccess(Null, 0, ExampleTargetChild(Str("I am a child")), Null);
    NameAssign(codec, 0, ExampleTargetChild(Str("I am a child")), Null, codec.serialize(ExampleTargetChild(Str("I am a child"))));
    StringMessage(codec);
    PatchOne(codec, op, Seeded(0));
  }

  /** Adding at index `i` of the fixture's child list, written as `s`. */
  lemma AddChildListItem(codec: Codec, items: seq<Value>, s: string, i: int, j: Json)
    requires TryParseInt(s) == Some(i) && s != "-"
    ensures var elem := TClass("ExampleTargetChild");
      var root := ExampleTarget(Null, 0, Null, Null, Null, List(elem, items));
      Add(codec, root, JsonPatchPath([Prop("ChildList")], s, true), Some(j)) ==
        if codec.coerce(j, elem).None? then Exec(Fail(ConversionMessage(codec, elem)), root)
        else if 0 <= i <= |items|
        then Exec(Ok, ExampleTarget(Null, 0, Null, Null, Null, List(elem, items[..i] + [codec.coerce(j, elem).value] + items[i..])))
        else Exec(Fail(NotFoundMessage(s)), root)
  {
    var list := List(TClass("ExampleTargetChild"), items);
    var root := ExampleTarget(Null, 0, Null, Null, Null, list);
    var p := JsonPatchPath([Prop("ChildList")], s, true);
    TargetFields(Null, 0, Null, Null, Null, list);
    assert [Prop("ChildList")][0] == Prop("ChildList") && [Prop("ChildList")][1..] == [];
    assert TargetObject(root, p) == Some(list);
    if codec.coerce(j, list.elem).Some? && 0 <= i <= |items| {
      var after := list.(items := items[..i] + [codec.coerce(j, list.elem).value] + items[i..]);
      assert Add(codec, root, p, Some(j)) == Exec(Ok, Set(root, [Prop("ChildList")], after));
      assert Set(root, [Prop("ChildList")], after) == ExampleTarget(Null, 0, Null, Null, Null, after);
    }
  }

  lemma InsertedChild()
    ensures var items := Children(["Child 1", "Child 2"]).items;
      List(TClass("ExampleTargetChild"), items[..1] + [ExampleTargetChild(Str("New Entry"))] + items[1..])
      == Children(["Child 1", "New Entry", "Child 2"])
  {
    var items := Children(["Child 1", "Child 2"]).items;
    var inserted := items[..1] + [ExampleTargetChild(Str("New Entry"))] + items[1..];
    var expected := Children(["Child 1", "New Entry", "Child 2"]).items;
    assert |inserted| == 3 == |expected|;
    assert inserted[0] == expected[0] && inserted[1] == expected[1] && inserted[2] == expected[2];
  }

  lemma ChildListOneResolves(items: seq<Value>)
    ensures Resolve("/ChildList/1", ExampleTarget(Null, 0, Null, Null, Null, List(TClass("ExampleTargetChild"), items)))
         == Success(JsonPatchPath([Prop("ChildList")], "1", true))
  {
    SegmentsOfPath("/ChildList/1", ["ChildList", "1"]);
    SmallNumbers();
    ChildListIndexResolves("/ChildList/1", Null, 0, Null, items, "1");
  }

  /** An add at an index inside the child list inserts the new child before the one there. */
  lemma AddInsertsChild(codec: Codec)
    requires codec.coerce(JObject(map["ChildName" := JString("New Entry")]), TClass("ExampleTargetChild"))
          == Some(ExampleTargetChild(Str("New Entry")))
    ensures var target := ExampleTarget(Null, 0, Null, Null, Null, Children(["Child 1", "Child 2"]));
      PatchSpec(codec, Elements([ToObject(JsonPatchOperation(add, "/ChildList/1", Some(JObject(map["ChildName" := JString("New Entry")])), None))]), target)
        == Patched(Succeeded, ExampleTarget(Null, 0, Null, Null, Null, Children(["Child 1", "New Entry", "Child 2"])))
  {
    var j := JObject(map["ChildName" := JString("New Entry")]);
    var op := JsonPatchOperation(add, "/ChildList/1", Some(j), None);
    var children := Children(["Child 1", "Child 2"]);
    var target := ExampleTarget(Null, 0, Null, Null, Null, children);
    ChildListOneResolves(children.items);
    SmallNumbers();
    AddChildListItem(codec, children.items, "1", 1, j);
    InsertedChild();
    OperationStep(codec, op, target, JsonPatchPath([Prop("ChildList")], "1", true));
    PatchOne(codec, op, target);
  }

  lemma ChildMessage(codec: Codec)
    requires codec.typeName(TClass("ExampleTargetChild")) == "ExampleTargetChild"
    ensures ConversionMessage(codec, TClass("ExampleTargetChild")) == "The value could not be converted to type ExampleTargetChild"
  {
  }

  /** An add of a number into the child list fails as an operation, naming the element type, and changes nothing. */
  lemma AddOfNumberToChildListFails(codec: Codec)
    requires codec.coerce(JNumber(789), TClass("ExampleTargetChild")).None?
    requires codec.typeName(TClass("ExampleTargetChild")) == "ExampleTargetChild"
    ensures var target := ExampleTarget(Null, 0, Null, Null, Null, Children(["Child 1", "Child 2"]));
      PatchSpec(codec, Elements([ToObject(JsonPatchOperation(add, "/ChildList/1", Some(JNumber(789)), None))]), target)
        == Patched(JsonPatchExecutor.Failure(OperationFailed, "The value could not be converted to type ExampleTargetChild"), target)
  {
    var op := JsonPatchOperation(add, "/ChildList/1", Some(JNumber(789)), None);
    var children := Children(["Child 1", "Child 2"]);
    var target := ExampleTarget(Null, 0, Null, Null, Null, children);
    ChildListOneResolves(children.items);
    SmallNumbers();
    AddChildListItem(codec, children.items, "1", 1, JNumber(789));
    ChildMessage(codec);
    OperationStep(codec, op, target, JsonPatchPath([Prop("ChildList")], "1", true));
    PatchOne(codec, op, target);
  }

  /** The objects a list of operations is written as, in order. */
  function Objects(ops: seq<JsonPatchOperation>): seq<OperationObject>
    decreases |ops|
  {
    if ops == [] then [] else [ToObject(ops[0])] + Objects(ops[1..])
  }

  lemma {:induction false} DeserializeObjects(ops: seq<JsonPatchOperation>)
    ensures DeserializeEach(Objects(ops)) == Success(ops)
    decreases |ops|
  {
    if ops != [] {
      DeserializeToObject(ops[0]);
      DeserializeObjects(ops[1..]);
      var objects := Objects(ops);
      assert objects[0] == ToObject(ops[0]) && objects[1..] == Objects(ops[1..]);
      assert [ops[0]] + ops[1..] == ops;
    }
  }

  /** A document written from operations runs exactly those operations. */
  lemma PatchOfObjects(codec: Codec, ops: seq<JsonPatchOperation>, root: Value)
    ensures PatchSpec(codec, Elements(Objects(ops)), root) == ApplyOperations(codec, ops, root)
  {
    DeserializeObjects(ops);
  }

  /** An operation that lets the run continue hands the graph it leaves to the rest. */
  lemma RunStep(codec: Codec, op: JsonPatchOperation, rest: seq<JsonPatchOperation>, root: Value, after: Value)
    requires ApplyOperation(codec, op, root) == Continue(after)
    ensures ApplyOperations(codec, [op] + rest, root) == ApplyOperations(codec, rest, after)
  {
    assert ([op] + rest)[0] == op && ([op] + rest)[1..] == rest;
  }

  /** Two operations that each let the run continue hand the graph they leave to the rest. */
  lemma RunTwoSteps(codec: Codec, op1: JsonPatchOperation, op2: JsonPatchOperation, rest: seq<JsonPatchOperation>,
                    root0: Value, root1: Value, root2: Value)
    requires ApplyOperation(codec, op1, root0) == Continue(root1) && ApplyOperation(codec, op2, root1) == Continue(root2)
    ensures ApplyOperations(codec, [op1, op2] + rest, root0) == ApplyOperations(codec, rest, root2)
  {
    var tail := [op2] + rest;
    assert tail[0] == op2 && tail[1..] == rest;
    assert [op1, op2] + rest == [op1] + tail;
    ContinueUnfold(codec, tail, root1, root2);
    RunStep(codec, op1, tail, root0, root1);
  }

  /** Assigning `Child`, through add or replace, when it holds null. */
  lemma ChildAssign(codec: Codec, name: Value, valueType: int, childList: Value, j: Json)
    ensures var t := ExampleTarget(name, valueType, Null, Null, Null, childList);
      var p := JsonPatchPath([], "Child", false);
      var v := codec.coerce(j, TClass("ExampleTargetChild"));
      && Add(codec, t, p, Some(j)) == Replace(codec, t, p, Some(j))
      && (v.Some? ==> Replace(codec, t, p, Some(j)) == Exec(Ok, ExampleTarget(name, valueType, v.value, Null, Null, childList)))
  {
    var t := ExampleTarget(name, valueType, Null, Null, Null, childList);
    TargetFields(name, valueType, Null, Null, Null, childList);
    var v := codec.coerce(j, TClass("ExampleTargetChild"));
    if v.Some? {
      assert t.(fields := t.fields["Child" := t.fields["Child"].(value := v.value)]) == ExampleTarget(name, valueType, v.value, Null, Null, childList);
    }
  }

  lemma ListChildNameSegments()
    ensures Segments("/ChildList/1/ChildName") == ["ChildList", "1", "ChildName"]
  {
    SegmentsOfPath("/ChildList/1/ChildName", ["ChildList", "1", "ChildName"]);
  }

  /** The name of the second child in the list resolves, whatever else the target holds. */
  lemma ListChildNameResolves(path: string, name: Value, valueType: int, child: Value, items: seq<Value>, childName: Value)
    requires Segments(path) == ["ChildList", "1", "ChildName"]
    requires |items| >= 2 && items[1] == ExampleTargetChild(childName)
    ensures Resolve(path, ExampleTarget(name, valueType, child, Null, Null, List(TClass("ExampleTargetChild"), items)))
         == Success(JsonPatchPath([Prop("ChildList"), Index(1)], "ChildName", false))
  {
    var list := List(TClass("ExampleTargetChild"), items);
    NameIsNotNumber("ChildList", 0);
    NameIsNotNumber("ChildName", 0);
    SmallNumbers();
    TargetFields(name, valueType, child, Null, Null, list);
    ChildFields(childName);
    ResolveThroughList(path, ExampleTarget(name, valueType, child, Null, Null, list), "ChildList", "1", "ChildName", 1);
  }

  /** Replacing the name of child `i` in the list with a value that converts. */
  lemma ListChildNameAssign(codec: Codec, name: Value, valueType: int, child: Value, items: seq<Value>, i: int, childName: Value, j: Json)
    requires 0 <= i < |items| && items[i] == ExampleTargetChild(childName) && codec.coerce(j, TString).Some?
    ensures Replace(codec, ExampleTarget(name, valueType, child, Null, Null, List(TClass("ExampleTargetChild"), items)),
                    JsonPatchPath([Prop("ChildList"), Index(i)], "ChildName", false), Some(j))
         == Exec(Ok, ExampleTarget(name, valueType, child, Null, Null,
                                   List(TClass("ExampleTargetChild"), items[i := ExampleTargetChild(codec.coerce(j, TString).value)])))
  {
    var list := List(TClass("ExampleTargetChild"), items);
    var t := ExampleTarget(name, valueType, child, Null, Null, list);
    var steps := [Prop("ChildList"), Index(i)];
    var v := codec.coerce(j, TString).value;
    TargetFields(name, valueType, child, Null, Null, list);
    ChildFields(childName);
    assert steps[0] == Prop("ChildList") && steps[1..] == [Index(i)];
    assert [Index(i)][0] == Index(i) && [Index(i)][1..] == [];
    assert Get(list, [Index(i)]) == Get(items[i], []);
    assert Get(t, steps) == Get(list, [Index(i)]);
    var item := items[i];
    var renamed := item.(fields := item.fields["ChildName" := item.fields["ChildName"].(value := v)]);
    assert renamed == ExampleTargetChild(v);
    assert Replace(codec, t, JsonPatchPath(steps, "ChildName", false), Some(j)) == Exec(Ok, Set(t, steps, renamed));
    assert Set(list, [Index(i)], renamed) == list.(items := items[i := renamed]);
    assert Set(t, steps, renamed) == ExampleTarget(name, valueType, child, Null, Null, list.(items := items[i := renamed]));
  }

  /** A test of `ValueType` against a number that renders the same lets the run continue, changing nothing. */
  lemma ValueTypeTestPasses(codec: Codec, path: string, name: Value, valueType: int, child: Value, childList: Value, n: int)
    requires Segments(path) == ["ValueType"]
    requires codec.render(codec.serialize(Int(valueType))) == codec.render(JNumber(n))
    ensures var t := ExampleTarget(name, valueType, child, Null, Null, childList);
      ApplyOperation(codec, JsonPatchOperation(test, path, Some(JNumber(n)), None), t) == Continue(t)
  {
    var t := ExampleTarget(name, valueType, child, Null, Null, childList);
    ValueTypeResolves(path, name, valueType, child, childList);
    ValueTypeAccess(codec, name, valueType, child, childList, JNumber(n), n);
    OperationStep(codec, JsonPatchOperation(test, path, Some(JNumber(n)), None), t, JsonPatchPath([], "ValueType", false));
  }

  lemma ThreeChildren()
    ensures var items := Children(["Child 1", "Child 2", "Child 3"]).items;
      && |items| == 3 && items[2] == ExampleTargetChild(Str("Child 3"))
      && List(TClass("ExampleTargetChild"), items[..2] + items[3..]) == Children(["Child 1", "Child 2"])
  {
    var items := Children(["Child 1", "Child 2", "Child 3"]).items;
    var kept := items[..2] + items[3..];
    var expected := Children(["Child 1", "Child 2"]).items;
    assert |kept| == 2 == |expected|;
    assert kept[0] == expected[0] && kept[1] == expected[1];
  }

  /** The second of two children renamed. */
  lemma SecondRenamed(newName: string)
    ensures var items := Children(["Child 1", "Child 2"]).items;
      && |items| == 2 && items[1] == ExampleTargetChild(Str("Child 2"))
      && List(TClass("ExampleTargetChild"), items[1 := ExampleTargetChild(Str(newName))]) == Children(["Child 1", newName])
  {
    var items := Children(["Child 1", "Child 2"]).items;
    var renamed := items[1 := ExampleTargetChild(Str(newName))];
    var expected := Children(["Child 1", newName]).items;
    assert |renamed| == 2 == |expected|;
    assert renamed[0] == expected[0] && renamed[1] == expected[1];
  }

  lemma FirstDropped(second: string)
    ensures var items := Children(["Child 1", second]).items;
      && |items| == 2
      && List(TClass("ExampleTargetChild"), items[1..]) == Children([second])
  {
    var items := Children(["Child 1", second]).items;
    var kept := items[1..];
    var expected := Children([second]).items;
    assert |kept| == 1 == |expected|;
    assert kept[0] == expected[0];
  }

  lemma ChildListZeroSegments()
    ensures Segments("/ChildList/0") == ["ChildList", "0"] && TryParseInt("0") == Some(0) && IntToString(0) == "0"
  {
    SegmentsOfPath("/ChildList/0", ["ChildList", "0"]);
    SmallNumbers();
  }

  lemma ChildListTwoSegments()
    ensures Segments("/ChildList/2") == ["ChildList", "2"] && TryParseInt("2") == Some(2) && IntToString(2) == "2"
  {
    SegmentsOfPath("/ChildList/2", ["ChildList", "2"]);
    SmallNumbers();
  }

  /** The first operation of the collections test: the third child moves into `Child`. */
  lemma MoveThirdChildIntoChild(codec: Codec, path: string, from: string)
    requires Segments(path) == ["Child"] && Segments(from) == ["ChildList", "2"]
    requires codec.coerce(codec.serialize(ExampleTargetChild(Str("Child 3"))), TClass("ExampleTargetChild"))
          == Some(ExampleTargetChild(Str("Child 3")))
    ensures ApplyOperation(codec, JsonPatchOperation(move, path, None, Some(from)),
                           ExampleTarget(Null, 0, Null, Null, Null, Children(["Child 1", "Child 2", "Child 3"])))
         == Continue(ExampleTarget(Null, 0, ExampleTargetChild(Str("Child 3")), Null, Null, Children(["Child 1", "Child 2"])))
  {
    var three := Children(["Child 1", "Child 2", "Child 3"]);
    var root := ExampleTarget(Null, 0, Null, Null, Null, three);
    var op := JsonPatchOperation(move, path, None, Some(from));
    SmallNumbers();
    ChildResolves(path, Null, 0, Null, three);
    ChildListIndexResolves(from, Null, 0, Null, three.items, "2");
    TransferStep(codec, op, root, JsonPatchPath([], "Child", false), JsonPatchPath([Prop("ChildList")], "2", true));
    RemoveChildListItem(Null, 0, Null, three.items, 2);
    ThreeChildren();
    ChildAssign(codec, Null, 0, Children(["Child 1", "Child 2"]), codec.serialize(ExampleTargetChild(Str("Child 3"))));
  }

  /** The second operation of the collections test: the second child is renamed. */
  lemma RenameSecondChild(codec: Codec, path: string, child: Value, name: Value, valueType: int, newName: string)
    requires Segments(path) == ["ChildList", "1", "ChildName"]
    requires codec.coerce(JString(newName), TString) == Some(Str(newName))
    ensures ApplyOperation(codec, JsonPatchOperation(replace, path, Some(JString(newName)), None),
                           ExampleTarget(name, valueType, child, Null, Null, Children(["Child 1", "Child 2"])))
         == Continue(ExampleTarget(name, valueType, child, Null, Null, Children(["Child 1", newName])))
  {
    var two := Children(["Child 1", "Child 2"]);
    var root := ExampleTarget(name, valueType, child, Null, Null, two);
    SecondRenamed(newName);
    ListChildNameResolves(path, name, valueType, child, two.items, Str("Child 2"));
    ListChildNameAssign(codec, name, valueType, child, two.items, 1, Str("Child 2"), JString(newName));
    OperationStep(codec, JsonPatchOperation(replace, path, Some(JString(newName)), None), root,
                  JsonPatchPath([Prop("ChildList"), Index(1)], "ChildName", false));
  }

  /** The third operation of the collections test: the first child is removed. */
  lemma RemoveFirstOfList(codec: Codec, path: string, s: string, child: Value, items: seq<Value>)
    requires Segments(path) == ["ChildList", s] && TryParseInt(s) == Some(0) && IntToString(0) == s && |items| > 0
    ensures ApplyOperation(codec, JsonPatchOperation(remove, path, None, None),
                           ExampleTarget(Null, 0, child, Null, Null, List(TClass("ExampleTargetChild"), items)))
         == Continue(ExampleTarget(Null, 0, child, Null, Null, List(TClass("ExampleTargetChild"), items[1..])))
  {
    var root := ExampleTarget(Null, 0, child, Null, Null, List(TClass("ExampleTargetChild"), items));
    var p := JsonPatchPath([Prop("ChildList")], s, true);
    ChildListIndexResolves(path, Null, 0, child, items, s);
    RemoveChildListItem(Null, 0, child, items, 0);
    assert items[..0] + items[1..] == items[1..];
    RemoveStep(codec, JsonPatchOperation(remove, path, None, None), root, p,
               ExampleTarget(Null, 0, child, Null, Null, List(TClass("ExampleTargetChild"), items[1..])));
  }

  /** The collections run, over paths whose segments are given. */
  lemma CollectionsRun(codec: Codec, childPath: string, thirdPath: string, secondNamePath: string, firstPath: string)
    requires Segments(childPath) == ["Child"] && Segments(thirdPath) == ["ChildList", "2"]
    requires Segments(secondNamePath) == ["ChildList", "1", "ChildName"] && Segments(firstPath) == ["ChildList", "0"]
    requires codec.coerce(codec.serialize(ExampleTargetChild(Str("Child 3"))), TClass("ExampleTargetChild"))
          == Some(ExampleTargetChild(Str("Child 3")))
    requires codec.coerce(JString("Replaced"), TString) == Some(Str("Replaced"))
    ensures PatchSpec(codec, Elements(Objects([
                JsonPatchOperation(move, childPath, None, Some(thirdPath)),
                JsonPatchOperation(replace, secondNamePath, Some(JString("Replaced")), None),
                JsonPatchOperation(remove, firstPath, None, None)])),
              ExampleTarget(Null, 0, Null, Null, Null, Children(["Child 1", "Child 2", "Child 3"])))
         == Patched(Succeeded, ExampleTarget(Null, 0, ExampleTargetChild(Str("Child 3")), Null, Null, Children(["Replaced"])))
  {
    var op1 := JsonPatchOperation(move, childPath, None, Some(thirdPath));
    var op2 := JsonPatchOperation(replace, secondNamePath, Some(JString("Replaced")), None);
    var op3 := JsonPatchOperation(remove, firstPath, None, None);
    var child := ExampleTargetChild(Str("Child 3"));
    var root0 := ExampleTarget(Null, 0, Null, Null, Null, Children(["Child 1", "Child 2", "Child 3"]));
    var root1 := ExampleTarget(Null, 0, child, Null, Null, Children(["Child 1", "Child 2"]));
    var root2 := ExampleTarget(Null, 0, child, Null, Null, Children(["Child 1", "Replaced"]));
    var root3 := ExampleTarget(Null, 0, child, Null, Null, Children(["Replaced"]));
    PatchOfObjects(codec, [op1, op2, op3], root0);
    MoveThirdChildIntoChild(codec, childPath, thirdPath);
    RenameSecondChild(codec, secondNamePath, child, Null, 0, "Replaced");
    SmallNumbers();
    RemoveFirstOfList(codec, firstPath, "0", child, Children(["Child 1", "Replaced"]).items);
    FirstDropped("Replaced");
    assert [op1, op2, op3] == [op1, op2] + [op3] && [op3] == [op3] + [];
    RunTwoSteps(codec, op1, op2, [op3], root0, root1, root2);
    RunStep(codec, op3, [], root2, root3);
  }

  /**
   * A move out of the child list, a replace inside it and a remove from it,
   * run in order: each sees the list the one before left.
   */
  lemma OperationsOnCollections(codec: Codec)
    requires codec.coerce(codec.serialize(ExampleTargetChild(Str("Child 3"))), TClass("ExampleTargetChild"))
          == Some(ExampleTargetChild(Str("Child 3")))
    requires codec.coerce(JString("Replaced"), TString) == Some(Str("Replaced"))
    ensures PatchSpec(codec, Elements(Objects([
                JsonPatchOperation(move, "/Child", None, Some("/ChildList/2")),
                JsonPatchOperation(replace, "/ChildList/1/ChildName", Some(JString("Replaced")), None),
                JsonPatchOperation(remove, "/ChildList/0", None, None)])),
              ExampleTarget(Null, 0, Null, Null, Null, Children(["Child 1", "Child 2", "Child 3"])))
         == Patched(Succeeded, ExampleTarget(Null, 0, ExampleTargetChild(Str("Child 3")), Null, Null, Children(["Replaced"])))
  {
    ChildSegments();
    ChildListTwoSegments();
    ListChildNameSegments();
    ChildListZeroSegments();
    CollectionsRun(codec, "/Child", "/ChildList/2", "/ChildList/1/ChildName", "/ChildList/0");
  }

  /** The first operation of the multiple-operations test: the child's name moves into `Name`. */
  lemma MoveChildNameIntoName(codec: Codec, path: string, from: string, valueType: int, childList: Value)
    requires Segments(path) == ["Name"] && Segments(from) == ["Child", "ChildName"]
    requires codec.coerce(codec.serialize(Str("I am a child")), TString) == Some(Str("I am a child"))
    ensures ApplyOperation(codec, JsonPatchOperation(move, path, None, Some(from)),
                           ExampleTarget(Null, valueType, ExampleTargetChild(Str("I am a child")), Null, Null, childList))
         == Continue(ExampleTarget(Str("I am a child"), valueType, ExampleTargetChild(Null), Null, Null, childList))
  {
    var root := ExampleTarget(Null, valueType, ExampleTargetChild(Str("I am a child")), Null, Null, childList);
    var op := JsonPatchOperation(move, path, None, Some(from));
    NameResolves(path, Null, valueType, ExampleTargetChild(Str("I am a child")), childList);
    ChildNameResolves(from, Null, valueType, Str("I am a child"), childList);
    TransferStep(codec, op, root, JsonPatchPath([], "Name", false), JsonPatchPath([Prop("Child")], "ChildName", false));
    ChildNameAccess(Null, valueType, Str("I am a child"), childList);
    NameAssign(codec, valueType, ExampleTargetChild(Null), childList, codec.serialize(Str("I am a child")));
  }

  /** An add on `ValueType` assigns the number. */
  lemma AddValueType(codec: Codec, path: string, name: Value, valueType: int, child: Value, childList: Value, n: int)
    requires Segments(path) == ["ValueType"]
    requires codec.coerce(JNumber(n), TInt) == Some(Int(n))
    ensures ApplyOperation(codec, JsonPatchOperation(add, path, Some(JNumber(n)), None),
                           ExampleTarget(name, valueType, child, Null, Null, childList))
         == Continue(ExampleTarget(name, n, child, Null, Null, childList))
  {
    var t := ExampleTarget(name, valueType, child, Null, Null, childList);
    var p := JsonPatchPath([], "ValueType", false);
    ValueTypeResolves(path, name, valueType, child, childList);
    ValueTypeAccess(codec, name, valueType, child, childList, JNumber(n), n);
    AddOnPropertyIsReplace(codec, t, p, Some(JNumber(n)));
    OperationStep(codec, JsonPatchOperation(add, path, Some(JNumber(n)), None), t, p);
  }

  /** The last three operations of the multiple-operations test: a test, an add, and a test of what the add left. */
  lemma TestAddTest(codec: Codec, path: string, name: Value, child: Value, childList: Value)
    requires Segments(path) == ["ValueType"]
    requires codec.render(codec.serialize(Int(1234))) == codec.render(JNumber(1234))
    requires codec.coerce(JNumber(789), TInt) == Some(Int(789))
    requires codec.render(codec.serialize(Int(789))) == codec.render(JNumber(789))
    ensures ApplyOperations(codec, [JsonPatchOperation(test, path, Some(JNumber(1234)), None),
                                    JsonPatchOperation(add, path, Some(JNumber(789)), None),
                                    JsonPatchOperation(test, path, Some(JNumber(789)), None)],
                            ExampleTarget(name, 1234, child, Null, Null, childList))
         == Patched(Succeeded, ExampleTarget(name, 789, child, Null, Null, childList))
  {
    var op3 := JsonPatchOperation(test, path, Some(JNumber(1234)), None);
    var op4 := JsonPatchOperation(add, path, Some(JNumber(789)), None);
    var op5 := JsonPatchOperation(test, path, Some(JNumber(789)), None);
    var before := ExampleTarget(name, 1234, child, Null, Null, childList);
    var after := ExampleTarget(name, 789, child, Null, Null, childList);
    ValueTypeTestPasses(codec, path, name, 1234, child, childList, 1234);
    AddValueType(codec, path, name, 1234, child, childList, 789);
    ValueTypeTestPasses(codec, path, name, 789, child, childList, 789);
    assert [op3, op4, op5] == [op3] + [op4, op5] && [op4, op5] == [op4] + [op5] && [op5] == [op5] + [];
    RunStep(codec, op3, [op4, op5], before, before);
    RunStep(codec, op4, [op5], before, after);
    RunStep(codec, op5, [], after, after);
  }

  /** The multiple-operations run, over paths whose segments are given. */
  lemma MultipleRun(codec: Codec, namePath: string, childNamePath: string, secondNamePath: string, valuePath: string)
    requires Segments(namePath) == ["Name"] && Segments(childNamePath) == ["Child", "ChildName"]
    requires Segments(secondNamePath) == ["ChildList", "1", "ChildName"] && Segments(valuePath) == ["ValueType"]
    requires codec.coerce(codec.serialize(Str("I am a child")), TString) == Some(Str("I am a child"))
    requires codec.coerce(JString("Replaced Name"), TString) == Some(Str("Replaced Name"))
    requires codec.render(codec.serialize(Int(1234))) == codec.render(JNumber(1234))
    requires codec.coerce(JNumber(789), TInt) == Some(Int(789))
    requires codec.render(codec.serialize(Int(789))) == codec.render(JNumber(789))
    ensures PatchSpec(codec, Elements(Objects([
                JsonPatchOperation(move, namePath, None, Some(childNamePath)),
                JsonPatchOperation(replace, secondNamePath, Some(JString("Replaced Name")), None),
                JsonPatchOperation(test, valuePath, Some(JNumber(1234)), None),
                JsonPatchOperation(add, valuePath, Some(JNumber(789)), None),
                JsonPatchOperation(test, valuePath, Some(JNumber(789)), None)])),
              ExampleTarget(Null, 1234, ExampleTargetChild(Str("I am a child")), Null, Null, Children(["Child 1", "Child 2"])))
         == Patched(Succeeded, ExampleTarget(Str("I am a child"), 789, ExampleTargetChild(Null), Null, Null,
                                              Children(["Child 1", "Replaced Name"])))
  {
    var op1 := JsonPatchOperation(move, namePath, None, Some(childNamePath));
    var op2 := JsonPatchOperation(replace, secondNamePath, Some(JString("Replaced Name")), None);
    var op3 := JsonPatchOperation(test, valuePath, Some(JNumber(1234)), None);
    var op4 := JsonPatchOperation(add, valuePath, Some(JNumber(789)), None);
    var op5 := JsonPatchOperation(test, valuePath, Some(JNumber(789)), None);
    var name := Str("I am a child");
    var emptied := ExampleTargetChild(Null);
    var renamed := Children(["Child 1", "Replaced Name"]);
    var root0 := ExampleTarget(Null, 1234, ExampleTargetChild(name), Null, Null, Children(["Child 1", "Child 2"]));
    var root1 := ExampleTarget(name, 1234, emptied, Null, Null, Children(["Child 1", "Child 2"]));
    var root2 := ExampleTarget(name, 1234, emptied, Null, Null, renamed);
    PatchOfObjects(codec, [op1, op2, op3, op4, op5], root0);
    MoveChildNameIntoName(codec, namePath, childNamePath, 1234, Children(["Child 1", "Child 2"]));
    RenameSecondChild(codec, secondNamePath, emptied, name, 1234, "Replaced Name");
    TestAddTest(codec, valuePath, name, emptied, renamed);
    assert [op1, op2, op3, op4, op5] == [op1, op2] + [op3, op4, op5];
    RunTwoSteps(codec, op1, op2, [op3, op4, op5], root0, root1, root2);
  }

  /**
   * Five operations of every kind but copy and remove, applied in order,
   * the tests seeing the values the operations before them left.
   */
  lemma PerformsMultipleOperations(codec: Codec)
    requires codec.coerce(codec.serialize(Str("I am a child")), TString) == Some(Str("I am a child"))
    requires codec.coerce(JString("Replaced Name"), TString) == Some(Str("Replaced Name"))
    requires codec.render(codec.serialize(Int(1234))) == codec.render(JNumber(1234))
    requires codec.coerce(JNumber(789), TInt) == Some(Int(789))
    requires codec.render(codec.serialize(Int(789))) == codec.render(JNumber(789))
    ensures PatchSpec(codec, Elements(Objects([
                JsonPatchOperation(move, "/Name", None, Some("/Child/ChildName")),
                JsonPatchOperation(replace, "/ChildList/1/ChildName", Some(JString("Replaced Name")), None),
                JsonPatchOperation(test, "/ValueType", Some(JNumber(1234)), None),
                JsonPatchOperation(add, "/ValueType", Some(JNumber(789)), None),
                JsonPatchOperation(test, "/ValueType", Some(JNumber(789)), None)])),
              ExampleTarget(Null, 1234, ExampleTargetChild(Str("I am a child")), Null, Null, Children(["Child 1", "Child 2"])))
         == Patched(Succeeded, ExampleTarget(Str("I am a child"), 789, ExampleTargetChild(Null), Null, Null,
                                              Children(["Child 1", "Replaced Name"])))
  {
    NameSegments();
    ChildNameSegments();
    ListChildNameSegments();
    ValueTypeSegments();
    MultipleRun(codec, "/Name", "/Child/ChildName", "/ChildList/1/ChildName", "/ValueType");
  }
}
