/**
 * The verbs applied to a resolved location.  `remove` changes the caller's
 * graph in place; the other five are written as functions from the graph
 * before to the outcome and the graph after, since their implementation is
 * not part of this model and only their designed behaviour is known.
 */
module OperationExecutor {
  import opened Wrappers
  import opened ObjectModel
  import opened IntParse
  import opened Models

  /**
   * The JSON serializer the executor borrows: it encodes a graph value,
   * coerces a JSON value into a declared type (None when it cannot), renders
   * the canonical text `test` compares, and names a type the way the CLR does
   * ("Int32", "String", "ExampleTargetChild").
   */
  datatype Codec = Codec(
    serialize: Value -> Json,
    coerce: (Json, Type) -> Option<Value>,
    render: Json -> string,
    typeName: Type -> string)

  /** What a verb reports: `Succeeded`, or not with a `Message`. */
  datatype ExecResult = Ok | Fail(message: string)

  /** A verb's report together with the graph it leaves behind. */
  datatype Exec = Exec(result: ExecResult, root: Value)

  function NotFoundMessage(member: string): string {
    "Could not find item " + member + " in the collection"
  }

  function ConversionMessage(codec: Codec, t: Type): string {
    "The value could not be converted to type " + codec.typeName(t)
  }

  function TestFailedMessage(member: string): string {
    "Test operation failed. '" + member + "' property did not match"
  }

  /** The steps from the root to the member a location designates. */
  function Location(p: JsonPatchPath): (r: Option<seq<Step>>)
    ensures r.Some? ==> |r.value| == |p.targetSteps| + 1 && r.value[..|p.targetSteps|] == p.targetSteps
    ensures r.Some? <==> !p.isCollection || TryParseInt(p.targetPropertyName).Some?
  {
    if !p.isCollection then Some(p.targetSteps + [Prop(p.targetPropertyName)])
    else match TryParseInt(p.targetPropertyName)
      case None => None
      case Some(i) => Some(p.targetSteps + [Index(i)])
  }

  /** The index a collection location's member denotes, when it lies inside the list `t`. */
  function ListIndex(t: Value, member: string): (r: Option<int>)
    ensures r.Some? <==> t.List? && TryParseInt(member).Some? && 0 <= TryParseInt(member).value < |t.items|
    ensures r.Some? ==> r == TryParseInt(member)
  {
    match TryParseInt(member)
    case None => None
    case Some(i) => if t.List? && 0 <= i < |t.items| then Some(i) else None
  }

  /** The declared type a value written at the location must have. */
  function MemberType(root: Value, p: JsonPatchPath): Option<Type> {
    match TargetObject(root, p)
    case None => None
    case Some(t) =>
      if p.isCollection then (if t.List? then Some(t.elem) else None)
      else match GetProperty(t, p.targetPropertyName)
        case None => None
        case Some(f) => Some(f.declared)
  }

  /**
   * The value at a location: the list element, bounds-checked, or the
   * property's current value.  It is what the designated member holds.
   */
  function Read(root: Value, p: JsonPatchPath): (r: Result<Value, string>)
    ensures r.Success? <==> Location(p).Some? && Get(root, Location(p).value).Some?
    ensures r.Success? ==> Get(root, Location(p).value) == Some(r.value)
    ensures r.Failure? ==> r.error == NotFoundMessage(p.targetPropertyName)
  {
    var m := p.targetPropertyName;
    if Location(p).None? then Failure(NotFoundMessage(m))
    else
      var l := Location(p).value;
      assert l == p.targetSteps + [l[|p.targetSteps|]];
      GetAppend(root, p.targetSteps, [l[|p.targetSteps|]]);
      match TargetObject(root, p)
      case None => Failure(NotFoundMessage(m))
      case Some(t) =>
        if p.isCollection then
          match ListIndex(t, m)
          case None => Failure(NotFoundMessage(m))
          case Some(i) => Success(t.items[i])
        else
          match GetProperty(t, m)
          case None => Failure(NotFoundMessage(m))
          case Some(f) => Success(f.value)
  }

  /**
   * `Remove`: a list loses the element at the parsed index, or the call
   * fails when the index is out of range; a property is reset to
   * `SetValue(obj, null)`'s outcome for its declared type.  A location
   * that no longer designates anything is written as a detached object
   * would be: nothing visible changes.
   */
  function RemoveSpec(root: Value, p: JsonPatchPath): Exec {
    match TargetObject(root, p)
    case None => Exec(Ok, root)
    case Some(t) =>
      var m := p.targetPropertyName;
      if p.isCollection then
        match TryParseInt(m)
        case None => Exec(Ok, root)
        case Some(i) =>
          if !t.List? then Exec(Ok, root)
          else if 0 <= i < |t.items| then Exec(Ok, Set(root, p.targetSteps, t.(items := t.items[..i] + t.items[i + 1..])))
          else Exec(Fail(NotFoundMessage(m)), root)
      else
        match GetProperty(t, m)
        case None => Exec(Ok, root)
        case Some(f) => Exec(Ok, Set(root, p.targetSteps, t.(fields := t.fields[m := f.(value := DefaultValue(f.declared))])))
  }

  /** `JsonPatchOperationExecutor.Remove`, on a location the resolver returned for this graph. */
  method Remove(target: Graph, p: JsonPatchPath) returns (r: ExecResult)
    requires ValidPath(target.root, p)
    modifies target
    ensures Exec(r, target.root) == RemoveSpec(old(target.root), p)
  {
    var targetObject := TargetObject(target.root, p).value;
    var m := p.targetPropertyName;
    if p.isCollection {
      var listIndex := TryParseInt(m).value;
      if 0 <= listIndex < |targetObject.items| {
        var items := targetObject.items[..listIndex] + targetObject.items[listIndex + 1..];
        target.root := Set(target.root, p.targetSteps, targetObject.(items := items));
        r := Ok;
      } else {
        r := Fail(NotFoundMessage(m));
      }
    } else {
      var property := GetProperty(targetObject, m).value;
      var fields := targetObject.fields[m := property.(value := DefaultValue(property.declared))];
      target.root := Set(target.root, p.targetSteps, targetObject.(fields := fields));
      r := Ok;
    }
  }

  /**
   * `Replace`: coerce the value (JSON null when the operation has none) to
   * the member's declared type and assign it.  At a list index the bounds
   * are checked first, with the "not found" message.
   */
  function Replace(codec: Codec, root: Value, p: JsonPatchPath, value: Option<Json>): Exec {
    var j := value.GetOr(JNull);
    match TargetObject(root, p)
    case None => Exec(Ok, root)
    case Some(t) =>
      var m := p.targetPropertyName;
      if p.isCollection then
        match TryParseInt(m)
        case None => Exec(Ok, root)
        case Some(i) =>
          if !t.List? then Exec(Ok, root)
          else if !(0 <= i < |t.items|) then Exec(Fail(NotFoundMessage(m)), root)
          else match codec.coerce(j, t.elem)
            case None => Exec(Fail(ConversionMessage(codec, t.elem)), root)
            case Some(v) => Exec(Ok, Set(root, p.targetSteps, t.(items := t.items[i := v])))
      else
        match GetProperty(t, m)
        case None => Exec(Ok, root)
        case Some(f) =>
          match codec.coerce(j, f.declared)
          case None => Exec(Fail(ConversionMessage(codec, f.declared)), root)
          case Some(v) => Exec(Ok, Set(root, p.targetSteps, t.(fields := t.fields[m := f.(value := v)])))
  }

  /**
   * `Add`: on a property it is `Replace`; on a list it coerces the value to
   * the element type and then appends it (member "-") or inserts it before
   * the index, an index past the end failing with the "not found" message.
   */
  function Add(codec: Codec, root: Value, p: JsonPatchPath, value: Option<Json>): Exec {
    if !p.isCollection then Replace(codec, root, p, value)
    else match TargetObject(root, p)
      case None => Exec(Ok, root)
      case Some(t) =>
        var m := p.targetPropertyName;
        if !t.List? then Exec(Ok, root)
        else match codec.coerce(value.GetOr(JNull), t.elem)
          case None => Exec(Fail(ConversionMessage(codec, t.elem)), root)
          case Some(v) =>
            if m == "-" then Exec(Ok, Set(root, p.targetSteps, t.(items := t.items + [v])))
            else match TryParseInt(m)
              case None => Exec(Ok, root)
              case Some(i) =>
                if 0 <= i <= |t.items| then Exec(Ok, Set(root, p.targetSteps, t.(items := t.items[..i] + [v] + t.items[i..])))
                else Exec(Fail(NotFoundMessage(m)), root)
  }

  /**
   * `Test`: the current value and the operation's value must render to the
   * same canonical text.
   */
  function Test(codec: Codec, root: Value, p: JsonPatchPath, value: Option<Json>): ExecResult {
    match Read(root, p)
    case Failure(e) => Fail(e)
    case Success(v) =>
      if codec.render(codec.serialize(v)) == codec.render(value.GetOr(JNull)) then Ok
      else Fail(TestFailedMessage(p.targetPropertyName))
  }

  /** `Move`: read the value at `from`, remove it there, then add it at `to`. */
  function Move(codec: Codec, root: Value, from: JsonPatchPath, to: JsonPatchPath): Exec {
    match Read(root, from)
    case Failure(e) => Exec(Fail(e), root)
    case Success(v) =>
      var removed := RemoveSpec(root, from);
      if removed.result.Fail? then removed
      else Add(codec, removed.root, to, Some(codec.serialize(v)))
  }

  /** `Copy`: `Move` without the remove. */
  function Copy(codec: Codec, root: Value, from: JsonPatchPath, to: JsonPatchPath): Exec {
    match Read(root, from)
    case Failure(e) => Exec(Fail(e), root)
    case Success(v) => Add(codec, root, to, Some(codec.serialize(v)))
  }

  /**
   * The steps a write through the location may change: the whole list for
   * a collection location, the one property otherwise.
   */
  function Footprint(p: JsonPatchPath): seq<Step> {
    if p.isCollection then p.targetSteps else p.targetSteps + [Prop(p.targetPropertyName)]
  }

  /** Neither sequence of steps leads into the other. */
  predicate Apart(p: seq<Step>, q: seq<Step>) {
    !(p <= q) && !(q <= p)
  }

  /** Assigning a property of an object the location reaches is a write at the location's footprint. */
  lemma PropertyWrite(root: Value, p: JsonPatchPath, t: Value, f: Field, w: Value)
    requires !p.isCollection && TargetObject(root, p) == Some(t) && GetProperty(t, p.targetPropertyName) == Some(f)
    ensures Set(root, p.targetSteps, t.(fields := t.fields[p.targetPropertyName := f.(value := w)])) == Set(root, Footprint(p), w)
  {
    var m := p.targetPropertyName;
    SetAppend(root, p.targetSteps, [Prop(m)], w);
    assert [Prop(m)][1..] == [];
  }

  /** Cutting out element `i` keeps the others, in order, and loses just that one. */
  lemma DeletedAt(s: seq<Value>, i: int)
    requires 0 <= i < |s|
    ensures var d := s[..i] + s[i + 1..];
      |d| == |s| - 1
      && (forall j :: 0 <= j < i ==> d[j] == s[j])
      && (forall j :: i <= j < |d| ==> d[j] == s[j + 1])
      && multiset(d) + multiset{s[i]} == multiset(s)
  {
    assert s == s[..i] + [s[i]] + s[i + 1..];
  }

  /** Putting `v` before element `i` keeps the others, in order, around it. */
  lemma InsertedAt(s: seq<Value>, i: int, v: Value)
    requires 0 <= i <= |s|
    ensures var d := s[..i] + [v] + s[i..];
      |d| == |s| + 1 && d[i] == v
      && (forall j :: 0 <= j < i ==> d[j] == s[j])
      && (forall j :: i < j < |d| ==> d[j] == s[j - 1])
      && multiset(d) == multiset(s) + multiset{v}
  {
    assert s == s[..i] + s[i..];
  }

  /** Removing an element in range deletes exactly that one: one element fewer, the others in order. */
  lemma RemoveDeletesElement(root: Value, p: JsonPatchPath)
    requires ValidPath(root, p) && p.isCollection
    requires 0 <= TryParseInt(p.targetPropertyName).value < |TargetObject(root, p).value.items|
    ensures var i := TryParseInt(p.targetPropertyName).value;
      var before := TargetObject(root, p).value;
      var e := RemoveSpec(root, p);
      e.result == Ok && TargetObject(e.root, p).Some? &&
      var after := TargetObject(e.root, p).value;
      after.List? && after.elem == before.elem && |after.items| == |before.items| - 1
      && (forall j :: 0 <= j < i ==> after.items[j] == before.items[j])
      && (forall j :: i <= j < |after.items| ==> after.items[j] == before.items[j + 1])
      && multiset(after.items) + multiset{before.items[i]} == multiset(before.items)
  {
    var i := TryParseInt(p.targetPropertyName).value;
    var before := TargetObject(root, p).value;
    GetSetSame(root, p.targetSteps, before.(items := before.items[..i] + before.items[i + 1..]));
    DeletedAt(before.items, i);
  }

  /** Removal fails only for a list index out of range, and then changes nothing. */
  lemma RemoveFailsIff(root: Value, p: JsonPatchPath)
    requires ValidPath(root, p)
    ensures var e := RemoveSpec(root, p);
      (e.result.Fail? <==> p.isCollection && !(0 <= TryParseInt(p.targetPropertyName).value < |TargetObject(root, p).value.items|))
      && (e.result.Fail? ==> e == Exec(Fail(NotFoundMessage(p.targetPropertyName)), root))
  {
  }

  /**
   * Removing a property resets it rather than deleting it: to 0 for an int,
   * to null for a reference type; the property stays settable with the same
   * declared type, so the location stays valid.
   */
  lemma RemoveResetsProperty(root: Value, p: JsonPatchPath)
    requires ValidPath(root, p) && !p.isCollection
    ensures var f := GetProperty(TargetObject(root, p).value, p.targetPropertyName).value;
      var e := RemoveSpec(root, p);
      e.result == Ok
      && (IsValueType(f.declared) ==> Read(e.root, p) == Success(Int(0)))
      && (!IsValueType(f.declared) ==> Read(e.root, p) == Success(Null))
      && MemberType(e.root, p) == Some(f.declared) && ValidPath(e.root, p)
  {
    var t := TargetObject(root, p).value;
    var f := GetProperty(t, p.targetPropertyName).value;
    GetSetSame(root, p.targetSteps, t.(fields := t.fields[p.targetPropertyName := f.(value := DefaultValue(f.declared))]));
  }

  /** Removing a property twice leaves the graph as removing it once. */
  lemma RemoveTwice(root: Value, p: JsonPatchPath)
    requires ValidPath(root, p) && !p.isCollection
    ensures RemoveSpec(RemoveSpec(root, p).root, p) == RemoveSpec(root, p)
  {
    var m := p.targetPropertyName;
    var t := TargetObject(root, p).value;
    var f := GetProperty(t, m).value;
    var t1 := t.(fields := t.fields[m := f.(value := DefaultValue(f.declared))]);
    var root1 := Set(root, p.targetSteps, t1);
    GetSetSame(root, p.targetSteps, t1);
    var f1 := GetProperty(t1, m).value;
    assert t1.(fields := t1.fields[m := f1.(value := DefaultValue(f1.declared))]) == t1;
    SetSet(root, p.targetSteps, t1, t1);
  }

  /** Removal leaves every place apart from the location's footprint as it was. */
  lemma RemoveFrame(root: Value, p: JsonPatchPath, q: seq<Step>)
    requires Apart(Footprint(p), q)
    ensures Get(RemoveSpec(root, p).root, q) == Get(root, q)
  {
    match TargetObject(root, p)
    case None =>
    case Some(t) =>
      if p.isCollection {
        if TryParseInt(p.targetPropertyName).Some? && t.List? {
          var i := TryParseInt(p.targetPropertyName).value;
          if 0 <= i < |t.items| {
            GetSetDisjoint(root, p.targetSteps, q, t.(items := t.items[..i] + t.items[i + 1..]));
          }
        }
      } else if GetProperty(t, p.targetPropertyName).Some? {
        var f := GetProperty(t, p.targetPropertyName).value;
        PropertyWrite(root, p, t, f, DefaultValue(f.declared));
        GetSetDisjoint(root, Footprint(p), q, DefaultValue(f.declared));
      }
  }

  /**
   * A replace succeeds exactly when the member exists and the value coerces
   * to its type; the member then holds the coerced value.  A failure changes
   * nothing and reports the bounds before the conversion.
   */
  lemma ReplaceOutcome(codec: Codec, root: Value, p: JsonPatchPath, value: Option<Json>)
    requires ValidPath(root, p)
    ensures MemberType(root, p).Some?
    ensures var e := Replace(codec, root, p, value);
      var v := codec.coerce(value.GetOr(JNull), MemberType(root, p).value);
      (e.result == Ok <==> Read(root, p).Success? && v.Some?)
      && (e.result == Ok ==> Read(e.root, p) == Success(v.value) && MemberType(e.root, p) == MemberType(root, p)
                             && ValidPath(e.root, p))
      && (e.result.Fail? ==>
            e.root == root && e.result.message == (if Read(root, p).Failure? then NotFoundMessage(p.targetPropertyName)
                                    else ConversionMessage(codec, MemberType(root, p).value)))
  {
    var t := TargetObject(root, p).value;
    var m := p.targetPropertyName;
    var e := Replace(codec, root, p, value);
    if e.result == Ok {
      if p.isCollection {
        var i := TryParseInt(m).value;
        GetSetSame(root, p.targetSteps, t.(items := t.items[i := codec.coerce(value.GetOr(JNull), t.elem).value]));
      } else {
        var f := GetProperty(t, m).value;
        GetSetSame(root, p.targetSteps, t.(fields := t.fields[m := f.(value := codec.coerce(value.GetOr(JNull), f.declared).value)]));
      }
    }
  }

  /** A replace leaves every place apart from the location's footprint as it was. */
  lemma ReplaceFrame(codec: Codec, root: Value, p: JsonPatchPath, value: Option<Json>, q: seq<Step>)
    requires Apart(Footprint(p), q)
    ensures Get(Replace(codec, root, p, value).root, q) == Get(root, q)
  {
    var j := value.GetOr(JNull);
    match TargetObject(root, p)
    case None =>
    case Some(t) =>
      if p.isCollection {
        if TryParseInt(p.targetPropertyName).Some? && t.List? && codec.coerce(j, t.elem).Some? {
          var i := TryParseInt(p.targetPropertyName).value;
          if 0 <= i < |t.items| {
            GetSetDisjoint(root, p.targetSteps, q, t.(items := t.items[i := codec.coerce(j, t.elem).value]));
          }
        }
      } else if GetProperty(t, p.targetPropertyName).Some? {
        var f := GetProperty(t, p.targetPropertyName).value;
        if codec.coerce(j, f.declared).Some? {
          PropertyWrite(root, p, t, f, codec.coerce(j, f.declared).value);
          GetSetDisjoint(root, Footprint(p), q, codec.coerce(j, f.declared).value);
        }
      }
  }

  /** On a property, `add` is `replace`: an object admits no new members. */
  lemma AddOnPropertyIsReplace(codec: Codec, root: Value, p: JsonPatchPath, value: Option<Json>)
    requires !p.isCollection
    ensures Add(codec, root, p, value) == Replace(codec, root, p, value)
  {
  }

  /**
   * Adding at an index inside a list, or just past its end, inserts before
   * that index: one element more, the coerced value at the index, the others
   * in order around it.
   */
  lemma AddInserts(codec: Codec, root: Value, p: JsonPatchPath, value: Option<Json>)
    requires ValidPath(root, p) && p.isCollection
    requires 0 <= TryParseInt(p.targetPropertyName).value <= |TargetObject(root, p).value.items|
    requires codec.coerce(value.GetOr(JNull), TargetObject(root, p).value.elem).Some?
    ensures var i := TryParseInt(p.targetPropertyName).value;
      var before := TargetObject(root, p).value;
      var v := codec.coerce(value.GetOr(JNull), before.elem).value;
      var e := Add(codec, root, p, value);
      e.result == Ok && TargetObject(e.root, p).Some? &&
      var after := TargetObject(e.root, p).value;
      after.List? && after.elem == before.elem && |after.items| == |before.items| + 1 && after.items[i] == v
      && (forall j :: 0 <= j < i ==> after.items[j] == before.items[j])
      && (forall j :: i < j < |after.items| ==> after.items[j] == before.items[j - 1])
      && multiset(after.items) == multiset(before.items) + multiset{v}
  {
    var i := TryParseInt(p.targetPropertyName).value;
    var before := TargetObject(root, p).value;
    var v := codec.coerce(value.GetOr(JNull), before.elem).value;
    SignAloneIsNotNumber();
    GetSetSame(root, p.targetSteps, before.(items := before.items[..i] + [v] + before.items[i..]));
    InsertedAt(before.items, i, v);
  }

  /** Adding at "-" appends after the last element. */
  lemma AddAppends(codec: Codec, root: Value, p: JsonPatchPath, value: Option<Json>)
    requires p.isCollection && p.targetPropertyName == "-"
    requires TargetObject(root, p).Some? && TargetObject(root, p).value.List?
    requires codec.coerce(value.GetOr(JNull), TargetObject(root, p).value.elem).Some?
    ensures var before := TargetObject(root, p).value;
      var e := Add(codec, root, p, value);
      e.result == Ok && TargetObject(e.root, p).Some? &&
      var after := TargetObject(e.root, p).value;
      after.List? && |after.items| == |before.items| + 1 && after.items[..|before.items|] == before.items
      && after.items[|before.items|] == codec.coerce(value.GetOr(JNull), before.elem).value
  {
    var before := TargetObject(root, p).value;
    GetSetSame(root, p.targetSteps, before.(items := before.items + [codec.coerce(value.GetOr(JNull), before.elem).value]));
  }

  /**
   * An add on a list fails when the value does not coerce to the element
   * type, which is checked first, or when the index lies past the end; a
   * failure changes nothing.
   */
  lemma AddToListFailsIff(codec: Codec, root: Value, p: JsonPatchPath, value: Option<Json>)
    requires ValidPath(root, p) && p.isCollection
    ensures var t := TargetObject(root, p).value;
      var i := TryParseInt(p.targetPropertyName).value;
      var e := Add(codec, root, p, value);
      (e.result.Fail? <==> codec.coerce(value.GetOr(JNull), t.elem).None? || !(0 <= i <= |t.items|))
      && (e.result.Fail? ==>
            e.root == root && e.result.message == (if codec.coerce(value.GetOr(JNull), t.elem).None? then ConversionMessage(codec, t.elem)
                                    else NotFoundMessage(p.targetPropertyName)))
  {
    SignAloneIsNotNumber();
  }

  /** An add leaves every place apart from the location's footprint as it was. */
  lemma AddFrame(codec: Codec, root: Value, p: JsonPatchPath, value: Option<Json>, q: seq<Step>)
    requires Apart(Footprint(p), q)
    ensures Get(Add(codec, root, p, value).root, q) == Get(root, q)
  {
    if !p.isCollection {
      ReplaceFrame(codec, root, p, value, q);
    } else {
      match TargetObject(root, p)
      case None =>
      case Some(t) =>
        if t.List? && codec.coerce(value.GetOr(JNull), t.elem).Some? {
          var v := codec.coerce(value.GetOr(JNull), t.elem).value;
          if p.targetPropertyName == "-" {
            GetSetDisjoint(root, p.targetSteps, q, t.(items := t.items + [v]));
          } else if TryParseInt(p.targetPropertyName).Some? {
            var i := TryParseInt(p.targetPropertyName).value;
            if 0 <= i <= |t.items| {
              GetSetDisjoint(root, p.targetSteps, q, t.(items := t.items[..i] + [v] + t.items[i..]));
            }
          }
        }
    }
  }

  /** A test against the value just read from the same location passes. */
  lemma TestReflexive(codec: Codec, root: Value, p: JsonPatchPath)
    requires Read(root, p).Success?
    ensures Test(codec, root, p, Some(codec.serialize(Read(root, p).value))) == Ok
  {
  }

  /**
   * A test passes exactly when the member exists and renders as the given
   * value does; a mismatch names the member.
   */
  lemma TestOutcome(codec: Codec, root: Value, p: JsonPatchPath, value: Option<Json>)
    ensures Test(codec, root, p, value) == Ok <==>
      Location(p).Some? && Get(root, Location(p).value).Some?
      && codec.render(codec.serialize(Get(root, Location(p).value).value)) == codec.render(value.GetOr(JNull))
    ensures Test(codec, root, p, value) == Fail(TestFailedMessage(p.targetPropertyName)) <==>
      Location(p).Some? && Get(root, Location(p).value).Some?
      && codec.render(codec.serialize(Get(root, Location(p).value).value)) != codec.render(value.GetOr(JNull))
  {
    var m := p.targetPropertyName;
    assert NotFoundMessage(m)[0] == 'C' && TestFailedMessage(m)[0] == 'T';
  }

  /** The serializer renders a coerced value back as the text it was coerced from. */
  predicate RendersBack(codec: Codec, j: Json, t: Type) {
    codec.coerce(j, t).Some? ==> codec.render(codec.serialize(codec.coerce(j, t).value)) == codec.render(j)
  }

  /** After a successful replace, a test with the same value passes. */
  lemma ReplaceThenTest(codec: Codec, root: Value, p: JsonPatchPath, value: Option<Json>)
    requires ValidPath(root, p)
    requires Replace(codec, root, p, value).result == Ok
    requires RendersBack(codec, value.GetOr(JNull), MemberType(root, p).value)
    ensures Test(codec, Replace(codec, root, p, value).root, p, value) == Ok
  {
    ReplaceOutcome(codec, root, p, value);
  }

  /** A copy leaves its source as it was when the destination's footprint is apart from it. */
  lemma CopyKeepsSource(codec: Codec, root: Value, from: JsonPatchPath, to: JsonPatchPath)
    requires Location(from).Some? && Apart(Footprint(to), Location(from).value)
    ensures Read(Copy(codec, root, from, to).root, from) == Read(root, from)
  {
    var e := Copy(codec, root, from, to);
    if Read(root, from).Success? {
      AddFrame(codec, root, to, Some(codec.serialize(Read(root, from).value)), Location(from).value);
    }
    var r0 := Read(root, from);
    var r1 := Read(e.root, from);
    assert r0.Success? <==> r1.Success?;
  }

  /**
   * A move out of a property leaves the property reset, as `remove` does,
   * when the destination's footprint is apart from it.
   */
  lemma MoveResetsSource(codec: Codec, root: Value, from: JsonPatchPath, to: JsonPatchPath)
    requires ValidPath(root, from) && !from.isCollection && Apart(Footprint(to), Footprint(from))
    ensures var e := Move(codec, root, from, to);
      Read(e.root, from) == Success(DefaultValue(MemberType(root, from).value))
  {
    RemoveResetsProperty(root, from);
    var removed := RemoveSpec(root, from);
    AddFrame(codec, removed.root, to, Some(codec.serialize(Read(root, from).value)), Footprint(from));
  }

  /** A property location: valid exactly when the property exists with a setter, and then read and typed from it. */
  lemma PropertyLocation(root: Value, p: JsonPatchPath)
    requires !p.isCollection
    ensures var f := FieldAt(root, p.targetSteps, p.targetPropertyName);
      (ValidPath(root, p) <==> f.Some? && f.value.settable)
      && (f.Some? ==> MemberType(root, p) == Some(f.value.declared) && Read(root, p) == Success(f.value.value))
  {
  }

  /** A location that can be read can be removed. */
  lemma ReadThenRemove(root: Value, p: JsonPatchPath)
    requires Read(root, p).Success?
    ensures RemoveSpec(root, p).result == Ok
  {
    var l := Location(p).value;
    assert l == p.targetSteps + [l[|p.targetSteps|]];
    GetAppend(root, p.targetSteps, [l[|p.targetSteps|]]);
  }

  /** Removing leaves a property apart from the removal's footprint as it was, setter and declared type included. */
  lemma RemoveKeepsApartField(root: Value, from: JsonPatchPath, to: JsonPatchPath)
    requires !to.isCollection && Apart(Footprint(to), Footprint(from))
    ensures FieldAt(RemoveSpec(root, from).root, to.targetSteps, to.targetPropertyName)
         == FieldAt(root, to.targetSteps, to.targetPropertyName)
  {
    assert Footprint(to) == to.targetSteps + [Prop(to.targetPropertyName)];
    match TargetObject(root, from)
    case None =>
    case Some(t) =>
      if from.isCollection {
        if TryParseInt(from.targetPropertyName).Some? && t.List? {
          var i := TryParseInt(from.targetPropertyName).value;
          if 0 <= i < |t.items| {
            SetKeepsField(root, to.targetSteps, to.targetPropertyName, from.targetSteps, t.(items := t.items[..i] + t.items[i + 1..]));
          }
        }
      } else if GetProperty(t, from.targetPropertyName).Some? {
        var f := GetProperty(t, from.targetPropertyName).value;
        PropertyWrite(root, from, t, f, DefaultValue(f.declared));
        SetKeepsField(root, to.targetSteps, to.targetPropertyName, Footprint(from), DefaultValue(f.declared));
      }
  }

  /**
   * A copy into a property puts there the source value, serialized and
   * coerced to the property's declared type; when that coercion fails the
   * copy fails with the conversion message and changes nothing.
   */
  lemma CopyPlacesValue(codec: Codec, root: Value, from: JsonPatchPath, to: JsonPatchPath)
    requires Read(root, from).Success? && ValidPath(root, to) && !to.isCollection
    ensures MemberType(root, to).Some?
    ensures var t := MemberType(root, to).value;
      var c := codec.coerce(codec.serialize(Read(root, from).value), t);
      var e := Copy(codec, root, from, to);
      (e.result == Ok <==> c.Some?)
      && (e.result == Ok ==> Read(e.root, to) == Success(c.value))
      && (e.result.Fail? ==> e == Exec(Fail(ConversionMessage(codec, t)), root))
  {
    PropertyLocation(root, to);
    ReplaceOutcome(codec, root, to, Some(codec.serialize(Read(root, from).value)));
  }

  /**
   * A move into a property apart from its source puts there the source
   * value, serialized and coerced to the property's declared type; when that
   * coercion fails the move fails with the conversion message, after the
   * removal at the source.
   */
  lemma MovePlacesValue(codec: Codec, root: Value, from: JsonPatchPath, to: JsonPatchPath)
    requires Read(root, from).Success? && ValidPath(root, to) && !to.isCollection
    requires Apart(Footprint(to), Footprint(from))
    ensures MemberType(root, to).Some?
    ensures var t := MemberType(root, to).value;
      var c := codec.coerce(codec.serialize(Read(root, from).value), t);
      var e := Move(codec, root, from, to);
      (e.result == Ok <==> c.Some?)
      && (e.result == Ok ==> Read(e.root, to) == Success(c.value))
      && (e.result.Fail? ==> e == Exec(Fail(ConversionMessage(codec, t)), RemoveSpec(root, from).root))
  {
    var removed := RemoveSpec(root, from);
    ReadThenRemove(root, from);
    RemoveKeepsApartField(root, from, to);
    PropertyLocation(root, to);
    PropertyLocation(removed.root, to);
    ReplaceOutcome(codec, removed.root, to, Some(codec.serialize(Read(root, from).value)));
  }
}
