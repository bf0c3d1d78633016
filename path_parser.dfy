/**
 * The path resolver, `JsonPatchPathParser.GetThing`: it strips the leading
 * slashes of a JSON-Pointer-like path, splits the rest on '/', walks every
 * segment but the last through properties and list indices, and checks the
 * last segment against what the walk reached.  The `~0`/`~1` escapes of
 * section 3 of RFC 6901 are not implemented by the resolver and not here.
 */
module PathParser {
  import opened Wrappers
  import opened ObjectModel
  import opened IntParse
  import opened Models

  /** The exceptions the resolver throws, as data. */
  datatype PathError =
    | NotFound(path: string)
    | CannotSet(path: string)
    | IsNull(path: string, name: string)
    | NotCollection(path: string, name: string)
      /** A dereference of null (a missing property, a null list element, a numeric first segment). */
    | NullReference
      /** An intermediate list index outside the list. */
    | IndexOutOfRange

  function Message(e: PathError): string {
    match e
    case NotFound(path) => "Could not find path '" + path + "' in target object"
    case CannotSet(path) => "Property '" + path + "' on target object cannot be set"
    case IsNull(path, name) =>
      "Could not access path '" + path + "' in target object. '" + name + "' is null"
    case NotCollection(path, name) =>
      "Could not access path '" + path + "' in target object. '" + name + "' is not a collection"
    case NullReference => "Object reference not set to an instance of an object."
    case IndexOutOfRange => "Index was out of range. Must be non-negative and less than the size of the collection."
  }

  function Slashes(k: nat): (r: string)
    ensures |r| == k && forall i :: 0 <= i < k ==> r[i] == '/'
  {
    if k == 0 then "" else "/" + Slashes(k - 1)
  }

  /** `path.TrimStart('/')`. */
  function TrimStart(s: string): (r: string)
    ensures |r| <= |s| && (r == [] || r[0] != '/')
    decreases |s|
  {
    if |s| > 0 && s[0] == '/' then TrimStart(s[1..]) else s
  }

  /** Every leading slash is removed, and nothing else. */
  lemma {:induction false} TrimStartRemovesSlashes(s: string)
    ensures s == Slashes(|s| - |TrimStart(s)|) + TrimStart(s)
    decreases |s|
  {
    if |s| > 0 && s[0] == '/' {
      var r := TrimStart(s[1..]);
      TrimStartRemovesSlashes(s[1..]);
      assert Slashes(|s| - |r|) == "/" + Slashes(|s[1..]| - |r|);
    } else {
      assert Slashes(0) + s == s;
    }
  }

  /** The inverse of `Split`: the parts with '/' between them. */
  function Join(parts: seq<string>): string
    requires |parts| >= 1
  {
    if |parts| == 1 then parts[0] else parts[0] + "/" + Join(parts[1..])
  }

  /** Joining is unaffected by a character put before the first part. */
  lemma {:induction false} JoinCons(c: char, parts: seq<string>)
    requires |parts| >= 1
    ensures Join([[c] + parts[0]] + parts[1..]) == [c] + Join(parts)
  {
    var q := [[c] + parts[0]] + parts[1..];
    if |parts| > 1 {
      assert q[1..] == parts[1..];
    }
  }

  /** `s.Split('/')`: the maximal slash-free pieces of `s`, in order, empty ones included. */
  function Split(s: string): (r: seq<string>)
    ensures |r| >= 1
    decreases |s|
  {
    if s == [] then [""]
    else
      var rest := Split(s[1..]);
      if s[0] == '/' then [""] + rest
      else [[s[0]] + rest[0]] + rest[1..]
  }

  /** Splitting loses nothing and keeps no separator: joining the pieces gives the text back. */
  lemma {:induction false} SplitJoin(s: string)
    ensures forall i :: 0 <= i < |Split(s)| ==> '/' !in Split(s)[i]
    ensures Join(Split(s)) == s
    decreases |s|
  {
    if s != [] {
      var rest := Split(s[1..]);
      SplitJoin(s[1..]);
      if s[0] == '/' {
        assert ([""] + rest)[1..] == rest;
      } else {
        JoinCons(s[0], rest);
        var r := Split(s);
        assert r[0] == [s[0]] + rest[0] && r[1..] == rest[1..];
        forall i | 0 <= i < |r| ensures '/' !in r[i] {
          if i > 0 { assert r[i] == rest[i]; }
        }
      }
    }
  }

  /** Splitting text that starts with a slash-free piece puts that piece in front of the first segment. */
  lemma {:induction false} SplitSlashFree(a: string, t: string)
    requires '/' !in a
    ensures Split(a + t) == [a + Split(t)[0]] + Split(t)[1..]
    decreases |a|
  {
    if a == [] {
      assert a + t == t && a + Split(t)[0] == Split(t)[0];
      assert Split(t) == [Split(t)[0]] + Split(t)[1..];
    } else {
      assert (a + t)[0] == a[0] && (a + t)[1..] == a[1..] + t;
      SplitSlashFree(a[1..], t);
      assert [a[0]] + (a[1..] + Split(t)[0]) == a + Split(t)[0];
    }
  }

  /** The other half of the inverse: splitting slash-free parts joined by '/' gives the parts back. */
  lemma {:induction false} SplitOfJoin(parts: seq<string>)
    requires |parts| >= 1 && forall i :: 0 <= i < |parts| ==> '/' !in parts[i]
    ensures Split(Join(parts)) == parts
    decreases |parts|
  {
    if |parts| == 1 {
      SplitSlashFree(parts[0], "");
      assert parts[0] + "" == parts[0];
    } else {
      var rest := Join(parts[1..]);
      SplitOfJoin(parts[1..]);
      assert Join(parts) == parts[0] + ("/" + rest);
      SplitSlashFree(parts[0], "/" + rest);
      assert ("/" + rest)[0] == '/' && ("/" + rest)[1..] == rest;
      assert Split("/" + rest) == [""] + parts[1..];
      assert parts[0] + "" == parts[0] && ([""] + parts[1..])[1..] == parts[1..];
      assert parts == [parts[0]] + parts[1..];
    }
  }

  /** Leading slashes are all that `TrimStart` removes. */
  lemma {:induction false} TrimSlashesBefore(k: nat, s: string)
    requires s == [] || s[0] != '/'
    ensures TrimStart(Slashes(k) + s) == s
  {
    if k > 0 {
      assert (Slashes(k) + s)[0] == '/' && (Slashes(k) + s)[1..] == Slashes(k - 1) + s;
      TrimSlashesBefore(k - 1, s);
    } else {
      assert Slashes(k) + s == s;
    }
  }

  /**
   * Any number of leading slashes in front of slash-free parts joined by
   * '/' yields exactly those parts as segments, the first part being non-empty.
   */
  lemma SegmentsOf(k: nat, parts: seq<string>)
    requires |parts| >= 1 && forall i :: 0 <= i < |parts| ==> '/' !in parts[i]
    requires parts[0] != ""
    ensures Segments(Slashes(k) + Join(parts)) == parts
  {
    SplitOfJoin(parts);
    var j := Join(parts);
    assert j[0] == parts[0][0];
    TrimSlashesBefore(k, j);
  }

  /** The segments the resolver walks. */
  function Segments(path: string): (r: seq<string>)
    ensures |r| >= 1
  {
    Split(TrimStart(path))
  }

  /** Where the walk stands: the current `targetObject` and the steps that reach it. */
  datatype Cursor = Cursor(target: Value, steps: seq<Step>)

  /** The `parentPropertyName` in force when segment `j` is stepped into; null prints as "". */
  function ParentName(segs: seq<string>, j: nat): string
    requires j < |segs|
  {
    if j == 0 then "" else segs[j - 1]
  }

  /** One turn of the resolver's loop: step from `c` into segment `seg`. */
  function StepInto(path: string, c: Cursor, seg: string, parentName: string): Result<Cursor, PathError> {
    match TryParseInt(seg)
    case Some(ind) =>
      if !IsCollectionType(c.target) then Failure(NotCollection(path, parentName))
      else if 0 <= ind < |c.target.items| then Success(Cursor(c.target.items[ind], c.steps + [Index(ind)]))
      else Failure(IndexOutOfRange)
    case None =>
      match GetProperty(c.target, seg)
      case None => Failure(NullReference)
      case Some(f) =>
        if f.value.Null? then Failure(IsNull(path, seg))
        else Success(Cursor(f.value, c.steps + [Prop(seg)]))
  }

  /** The walk through the first `k` segments, from the root. */
  function Walk(path: string, segs: seq<string>, root: Value, k: nat): Result<Cursor, PathError>
    requires k <= |segs|
  {
    if k == 0 then Success(Cursor(root, []))
    else match Walk(path, segs, root, k - 1)
      case Failure(e) => Failure(e)
      case Success(c) => StepInto(path, c, segs[k - 1], ParentName(segs, k - 1))
  }

  /** The checks on the last segment, given the walk up to it and the walk one segment shorter. */
  function Finish(path: string, parent: Option<Cursor>, parentName: string, c: Cursor, last: string): Result<JsonPatchPath, PathError> {
    if TryParseInt(last).Some? then
      match parent
      case None => Failure(NullReference)
      case Some(p) =>
        match GetProperty(p.target, parentName)
        case None => Failure(NullReference)
        case Some(f) =>
          if !IsCollectionType(f.value) then Failure(NotCollection(path, parentName))
          else Success(JsonPatchPath(p.steps + [Prop(parentName)], last, true))
    else if c.target.Null? then Failure(NullReference)
    else match GetProperty(c.target, last)
      case None => Failure(NotFound(path))
      case Some(f) =>
        if !f.settable then Failure(CannotSet(path))
        else Success(JsonPatchPath(c.steps, last, false))
  }

  /** The walk one segment short of the last, when there is such a segment. */
  function ParentCursor(path: string, segs: seq<string>, root: Value): Option<Cursor> {
    if |segs| >= 2 && Walk(path, segs, root, |segs| - 2).Success?
    then Some(Walk(path, segs, root, |segs| - 2).value)
    else None
  }

  /** What `GetThing(path, root)` returns or throws. */
  function Resolve(path: string, root: Value): Result<JsonPatchPath, PathError> {
    var segs := Segments(path);
    var n := |segs|;
    match Walk(path, segs, root, n - 1)
    case Failure(e) => Failure(e)
    case Success(c) => Finish(path, ParentCursor(path, segs, root), ParentName(segs, n - 1), c, segs[n - 1])
  }

  /** A failed walk stays failed with the same error, however far it is continued. */
  lemma {:induction false} WalkFailureSticks(path: string, segs: seq<string>, root: Value, j: nat, m: nat)
    requires j <= m <= |segs| && Walk(path, segs, root, j).Failure?
    ensures Walk(path, segs, root, m) == Walk(path, segs, root, j)
    decreases m - j
  {
    if j < m {
      WalkFailureSticks(path, segs, root, j, m - 1);
    }
  }

  /** A walk that fails before the last segment makes the resolver fail with the same error. */
  lemma ResolveOfFailedWalk(path: string, root: Value, k: nat)
    requires k < |Segments(path)| && Walk(path, Segments(path), root, k).Failure?
    ensures Resolve(path, root) == Failure(Walk(path, Segments(path), root, k).error)
  {
    WalkFailureSticks(path, Segments(path), root, k, |Segments(path)| - 1);
  }

  /** Every cursor of the walk names its value truthfully: its steps lead from the root to it. */
  lemma {:induction false} WalkReaches(path: string, segs: seq<string>, root: Value, k: nat)
    requires k <= |segs| && Walk(path, segs, root, k).Success?
    ensures Get(root, Walk(path, segs, root, k).value.steps) == Some(Walk(path, segs, root, k).value.target)
  {
    if k > 0 {
      var c := Walk(path, segs, root, k - 1).value;
      WalkReaches(path, segs, root, k - 1);
      var d := Walk(path, segs, root, k).value;
      GetAppend(root, c.steps, [d.steps[|d.steps| - 1]]);
      assert d.steps == c.steps + [d.steps[|d.steps| - 1]];
    }
  }

  // ---------------------------------------------------------------------
  // What the resolver promises
  // ---------------------------------------------------------------------

  /** Segment `j` is a property name whose property exists on the walked object and is null. */
  predicate NullAt(path: string, segs: seq<string>, root: Value, j: nat) {
    j < |segs| && Walk(path, segs, root, j).Success? && TryParseInt(segs[j]).None?
    && GetProperty(Walk(path, segs, root, j).value.target, segs[j]).Some?
    && GetProperty(Walk(path, segs, root, j).value.target, segs[j]).value.value.Null?
  }

  /** Segment `j` parses as an int but the walked object is not a collection. */
  predicate NotListAt(path: string, segs: seq<string>, root: Value, j: nat) {
    j < |segs| && Walk(path, segs, root, j).Success? && TryParseInt(segs[j]).Some?
    && !IsCollectionType(Walk(path, segs, root, j).value.target)
  }

  /** The step into segment `j` is where the walk first fails. */
  predicate FailsAt(path: string, segs: seq<string>, root: Value, j: nat) {
    j < |segs| && Walk(path, segs, root, j).Success?
    && StepInto(path, Walk(path, segs, root, j).value, segs[j], ParentName(segs, j)).Failure?
  }

  /** The walk through `k` segments ends with the error of its failing step `j`. */
  predicate OriginAt(path: string, segs: seq<string>, root: Value, k: nat, j: nat) {
    j < k <= |segs| && FailsAt(path, segs, root, j)
    && Walk(path, segs, root, k) == StepInto(path, Walk(path, segs, root, j).value, segs[j], ParentName(segs, j))
  }

  /** A failed walk failed at one step, and carries that step's error. */
  lemma {:induction false} WalkErrorOrigin(path: string, segs: seq<string>, root: Value, k: nat)
    requires k <= |segs| && Walk(path, segs, root, k).Failure?
    ensures exists j :: OriginAt(path, segs, root, k, j)
  {
    if Walk(path, segs, root, k - 1).Failure? {
      WalkErrorOrigin(path, segs, root, k - 1);
      var j: nat :| OriginAt(path, segs, root, k - 1, j);
      assert OriginAt(path, segs, root, k, j);
    } else {
      assert OriginAt(path, segs, root, k, k - 1);
    }
  }

  /** The errors a walk can end in: the ones thrown inside the resolver's loop. */
  predicate IsWalkError(e: PathError) {
    e.NotCollection? || e.IndexOutOfRange? || e.NullReference? || e.IsNull?
  }

  lemma {:induction false} WalkErrorKinds(path: string, segs: seq<string>, root: Value, k: nat)
    requires k <= |segs| && Walk(path, segs, root, k).Failure?
    ensures IsWalkError(Walk(path, segs, root, k).error)
  {
    if Walk(path, segs, root, k - 1).Failure? {
      WalkErrorKinds(path, segs, root, k - 1);
    }
  }

  /** The two errors of one step that name something, and what they name. */
  lemma StepIntoErrors(path: string, c: Cursor, seg: string, parentName: string, reported: string, name: string)
    ensures StepInto(path, c, seg, parentName).Failure? ==> IsWalkError(StepInto(path, c, seg, parentName).error)
    ensures StepInto(path, c, seg, parentName) == Failure(NotCollection(reported, name)) <==>
      reported == path && name == parentName && TryParseInt(seg).Some? && !IsCollectionType(c.target)
    ensures StepInto(path, c, seg, parentName) == Failure(IsNull(reported, name)) <==>
      reported == path && name == seg && TryParseInt(seg).None? && GetProperty(c.target, seg).Some?
      && GetProperty(c.target, seg).value.value.Null?
  {
  }

  /** `Resolve` is the walk to the last segment followed by the checks on it. */
  lemma ResolveUnfold(path: string, root: Value)
    ensures var segs := Segments(path);
      var w := Walk(path, segs, root, |segs| - 1);
      Resolve(path, root) ==
        if w.Failure? then Failure(w.error)
        else Finish(path, ParentCursor(path, segs, root), ParentName(segs, |segs| - 1), w.value, segs[|segs| - 1])
  {
  }

  /** When the walk reaches the last segment, the parent cursor is the walk one segment shorter. */
  lemma ParentCursorOfWalk(path: string, segs: seq<string>, root: Value)
    requires |segs| >= 1 && Walk(path, segs, root, |segs| - 1).Success?
    ensures |segs| >= 2 ==>
      (&& Walk(path, segs, root, |segs| - 2).Success?
       && ParentCursor(path, segs, root) == Some(Walk(path, segs, root, |segs| - 2).value)
       && Walk(path, segs, root, |segs| - 1)
          == StepInto(path, Walk(path, segs, root, |segs| - 2).value, segs[|segs| - 2], ParentName(segs, |segs| - 2)))
    ensures |segs| < 2 ==> ParentCursor(path, segs, root) == None
  {
  }

  /**
   * Every location the resolver returns is usable: it names the last segment,
   * it is a collection location exactly when that segment parses as an int,
   * and it designates a list, or an object with a settable property of that name.
   */
  lemma ResolvedPathIsValid(path: string, root: Value)
    requires Resolve(path, root).Success?
    ensures var segs := Segments(path);
      var p := Resolve(path, root).value;
      && p.targetPropertyName == segs[|segs| - 1]
      && (p.isCollection <==> TryParseInt(segs[|segs| - 1]).Some?)
      && ValidPath(root, p)
  {
    if TryParseInt(Segments(path)[|Segments(path)| - 1]).Some? {
      ResolveCollectionIff(path, root);
    } else {
      ResolvePropertyIff(path, root);
    }
  }

  /** The checks on a last segment that is a property name. */
  lemma FinishProperty(path: string, parent: Option<Cursor>, parentName: string, c: Cursor, last: string)
    requires TryParseInt(last).None?
    ensures Finish(path, parent, parentName, c, last).Success? <==>
      GetProperty(c.target, last).Some? && GetProperty(c.target, last).value.settable
    ensures Finish(path, parent, parentName, c, last).Success? ==>
      Finish(path, parent, parentName, c, last).value == JsonPatchPath(c.steps, last, false)
  {
  }

  /** The checks on a last segment that is a number: only the parent and its property are looked at. */
  lemma FinishCollection(path: string, parent: Option<Cursor>, parentName: string, c: Cursor, last: string)
    requires TryParseInt(last).Some?
    ensures Finish(path, parent, parentName, c, last).Success? <==>
      parent.Some? && GetProperty(parent.value.target, parentName).Some?
      && IsCollectionType(GetProperty(parent.value.target, parentName).value.value)
    ensures Finish(path, parent, parentName, c, last).Success? ==>
      Finish(path, parent, parentName, c, last).value == JsonPatchPath(parent.value.steps + [Prop(parentName)], last, true)
  {
  }

  /** A successful step into a property name reaches that property's value; one into a number, a list item. */
  lemma StepIntoSuccess(path: string, c: Cursor, seg: string, parentName: string)
    requires StepInto(path, c, seg, parentName).Success?
    ensures TryParseInt(seg).None? ==>
      (GetProperty(c.target, seg).Some?
       && StepInto(path, c, seg, parentName).value == Cursor(GetProperty(c.target, seg).value.value, c.steps + [Prop(seg)]))
    ensures TryParseInt(seg).Some? ==> c.target.List? && GetProperty(c.target, seg).None?
  {
  }

  /**
   * A last segment that is not a number: resolution succeeds exactly when the
   * walk over the earlier segments reaches an object with a settable property
   * of that name, and then the location is that object and that property.
   */
  lemma ResolvePropertyIff(path: string, root: Value)
    requires TryParseInt(Segments(path)[|Segments(path)| - 1]).None?
    ensures var segs := Segments(path);
      var last := segs[|segs| - 1];
      var w := Walk(path, segs, root, |segs| - 1);
      Resolve(path, root).Success? <==>
        w.Success? && GetProperty(w.value.target, last).Some?
        && GetProperty(w.value.target, last).value.settable
    ensures var segs := Segments(path);
      var w := Walk(path, segs, root, |segs| - 1);
      Resolve(path, root).Success? ==>
        && Resolve(path, root).value == JsonPatchPath(w.value.steps, segs[|segs| - 1], false)
        && TargetObject(root, Resolve(path, root).value) == Some(w.value.target)
  {
    var segs := Segments(path);
    var n := |segs|;
    var w := Walk(path, segs, root, n - 1);
    if w.Failure? {
      ResolveOfFailedWalk(path, root, n - 1);
    } else {
      ResolveFinish(path, root);
      FinishProperty(path, ParentCursor(path, segs, root), ParentName(segs, n - 1), w.value, segs[n - 1]);
      WalkReaches(path, segs, root, n - 1);
    }
  }

  /**
   * A last segment that parses as an int: resolution succeeds exactly when
   * there is an earlier segment, it is a property name, and the walk reaches
   * a list through it.  The index itself is never compared with the list's
   * length.  The location is that list, the collection the preceding
   * property holds.
   */
  lemma ResolveCollectionIff(path: string, root: Value)
    requires TryParseInt(Segments(path)[|Segments(path)| - 1]).Some?
    ensures var segs := Segments(path);
      var n := |segs|;
      var w := Walk(path, segs, root, n - 1);
      Resolve(path, root).Success? <==>
        n >= 2 && TryParseInt(segs[n - 2]).None? && w.Success? && IsCollectionType(w.value.target)
    ensures var segs := Segments(path);
      var w := Walk(path, segs, root, |segs| - 1);
      Resolve(path, root).Success? ==>
        && Resolve(path, root).value == JsonPatchPath(w.value.steps, segs[|segs| - 1], true)
        && TargetObject(root, Resolve(path, root).value) == Some(w.value.target)
        && w.value.steps[|w.value.steps| - 1] == Prop(segs[|segs| - 2])
  {
    var segs := Segments(path);
    var n := |segs|;
    var w := Walk(path, segs, root, n - 1);
    if w.Failure? {
      ResolveOfFailedWalk(path, root, n - 1);
    } else {
      ResolveFinish(path, root);
      ParentCursorOfWalk(path, segs, root);
      WalkReaches(path, segs, root, n - 1);
      FinishCollection(path, ParentCursor(path, segs, root), ParentName(segs, n - 1), w.value, segs[n - 1]);
      if n >= 2 {
        var q := Walk(path, segs, root, n - 2).value;
        assert ParentName(segs, n - 1) == segs[n - 2];
        StepIntoSuccess(path, q, segs[n - 2], ParentName(segs, n - 2));
      }
    }
  }

  /** A path of slashes alone, "/" included, has one empty segment and names no property. */
  lemma {:induction false} ResolveSlashesOnly(k: nat, root: Value)
    requires k >= 1 && !root.Null? && GetProperty(root, "").None?
    ensures Resolve(Slashes(k), root) == Failure(NotFound(Slashes(k)))
  {
    assert Segments(Slashes(k)) == [""] by {
      TrimSlashes(k);
    }
    assert TryParseInt("").None? by { SignAloneIsNotNumber(); }
  }

  lemma {:induction false} TrimSlashes(k: nat)
    ensures TrimStart(Slashes(k)) == ""
  {
    if k > 0 {
      assert Slashes(k)[1..] == Slashes(k - 1);
      TrimSlashes(k - 1);
    }
  }

  /** When the walk to the last segment succeeds, the outcome is that of the checks on the last segment. */
  lemma ResolveFinish(path: string, root: Value)
    requires Walk(path, Segments(path), root, |Segments(path)| - 1).Success?
    ensures var segs := Segments(path);
      Resolve(path, root) == Finish(path, ParentCursor(path, segs, root), ParentName(segs, |segs| - 1),
                                    Walk(path, segs, root, |segs| - 1).value, segs[|segs| - 1])
  {
  }

  /** The checks on the last segment report "could not find" and "cannot be set" only for a property name. */
  lemma FinishPropertyErrors(path: string, parent: Option<Cursor>, parentName: string, c: Cursor, last: string, reported: string)
    ensures Finish(path, parent, parentName, c, last) == Failure(NotFound(reported)) <==>
      reported == path && TryParseInt(last).None? && !c.target.Null? && GetProperty(c.target, last).None?
    ensures Finish(path, parent, parentName, c, last) == Failure(CannotSet(reported)) <==>
      reported == path && TryParseInt(last).None? && !c.target.Null? && GetProperty(c.target, last).Some?
      && !GetProperty(c.target, last).value.settable
  {
  }

  /**
   * "Could not find path" is reported exactly when the walk succeeds, the
   * last segment is a property name and the object reached has no such property.
   */
  lemma ResolveNotFoundIff(path: string, root: Value, reported: string)
    ensures var segs := Segments(path);
      var last := segs[|segs| - 1];
      var w := Walk(path, segs, root, |segs| - 1);
      Resolve(path, root) == Failure(NotFound(reported)) <==>
        reported == path && TryParseInt(last).None? && w.Success? && !w.value.target.Null?
        && GetProperty(w.value.target, last).None?
  {
    var segs := Segments(path);
    var n := |segs|;
    var w := Walk(path, segs, root, n - 1);
    if w.Failure? {
      ResolveOfFailedWalk(path, root, n - 1);
      WalkErrorKinds(path, segs, root, n - 1);
    } else {
      ResolveFinish(path, root);
      FinishPropertyErrors(path, ParentCursor(path, segs, root), ParentName(segs, n - 1), w.value, segs[n - 1], reported);
    }
  }

  /**
   * "Cannot be set" is reported exactly when the property exists but has no
   * setter: the existence check comes first.
   */
  lemma ResolveCannotSetIff(path: string, root: Value, reported: string)
    ensures var segs := Segments(path);
      var last := segs[|segs| - 1];
      var w := Walk(path, segs, root, |segs| - 1);
      Resolve(path, root) == Failure(CannotSet(reported)) <==>
        reported == path && TryParseInt(last).None? && w.Success? && !w.value.target.Null?
        && GetProperty(w.value.target, last).Some? && !GetProperty(w.value.target, last).value.settable
  {
    var segs := Segments(path);
    var n := |segs|;
    var w := Walk(path, segs, root, n - 1);
    if w.Failure? {
      ResolveOfFailedWalk(path, root, n - 1);
      WalkErrorKinds(path, segs, root, n - 1);
    } else {
      ResolveFinish(path, root);
      FinishPropertyErrors(path, ParentCursor(path, segs, root), ParentName(segs, n - 1), w.value, segs[n - 1], reported);
    }
  }

  /**
   * "'name' is null" is reported exactly when some segment before the last
   * names an existing property whose value is null, on an object the walk
   * reached; the first such segment is the one named.
   */
  lemma ResolveIsNullIff(path: string, root: Value, reported: string, name: string)
    ensures var segs := Segments(path);
      Resolve(path, root) == Failure(IsNull(reported, name)) <==>
        reported == path && exists j :: 0 <= j < |segs| - 1 && NullAt(path, segs, root, j) && segs[j] == name
  {
    var segs := Segments(path);
    var n := |segs|;
    if Resolve(path, root) == Failure(IsNull(reported, name)) {
      IsNullOrigin(path, root, reported, name);
    }
    if reported == path && exists j :: 0 <= j < n - 1 && NullAt(path, segs, root, j) && segs[j] == name {
      var j :| 0 <= j < n - 1 && NullAt(path, segs, root, j) && segs[j] == name;
      IsNullAtStep(path, root, name, j);
    }
  }

  /** An "is null" outcome comes from the walk: the checks on the last segment never raise it. */
  lemma IsNullFromWalk(path: string, root: Value, reported: string, name: string)
    requires Resolve(path, root) == Failure(IsNull(reported, name))
    ensures Walk(path, Segments(path), root, |Segments(path)| - 1) == Failure(IsNull(reported, name))
  {
    ResolveUnfold(path, root);
  }

  /** An "is null" outcome comes from a step of the walk into a null property. */
  lemma IsNullOrigin(path: string, root: Value, reported: string, name: string)
    requires Resolve(path, root) == Failure(IsNull(reported, name))
    ensures var segs := Segments(path);
      reported == path && exists j :: 0 <= j < |segs| - 1 && NullAt(path, segs, root, j) && segs[j] == name
  {
    IsNullFromWalk(path, root, reported, name);
    WalkIsNullOrigin(path, Segments(path), root, |Segments(path)| - 1, reported, name);
  }

  /** A walk that ends in "is null" stepped into a null property. */
  lemma WalkIsNullOrigin(path: string, segs: seq<string>, root: Value, k: nat, reported: string, name: string)
    requires k <= |segs| && Walk(path, segs, root, k) == Failure(IsNull(reported, name))
    ensures reported == path && exists j :: 0 <= j < k && NullAt(path, segs, root, j) && segs[j] == name
  {
    WalkErrorOrigin(path, segs, root, k);
    var j: nat :| OriginAt(path, segs, root, k, j);
    StepIntoErrors(path, Walk(path, segs, root, j).value, segs[j], ParentName(segs, j), reported, name);
    assert NullAt(path, segs, root, j);
  }

  /** A step before the last into a null property ends the resolution with "is null". */
  lemma IsNullAtStep(path: string, root: Value, name: string, j: nat)
    requires j < |Segments(path)| - 1 && NullAt(path, Segments(path), root, j) && Segments(path)[j] == name
    ensures Resolve(path, root) == Failure(IsNull(path, name))
  {
    var segs := Segments(path);
    StepIntoErrors(path, Walk(path, segs, root, j).value, segs[j], ParentName(segs, j), path, name);
    assert Walk(path, segs, root, j + 1) == Failure(IsNull(path, name));
    ResolveOfFailedWalk(path, root, j + 1);
  }

  /** The last segment parses as an int, but the property before it holds no collection. */
  predicate FinalNotList(path: string, segs: seq<string>, root: Value) {
    var n := |segs|;
    n >= 2 && TryParseInt(segs[n - 1]).Some? && Walk(path, segs, root, n - 1).Success?
    && GetProperty(Walk(path, segs, root, n - 2).value.target, segs[n - 2]).Some?
    && !IsCollectionType(GetProperty(Walk(path, segs, root, n - 2).value.target, segs[n - 2]).value.value)
  }

  /**
   * "'name' is not a collection" is reported exactly when a segment that
   * parses as an int is applied to something that is not a list: either an
   * intermediate segment (then `name` is the segment before it, "" for the
   * first), or the last segment (then `name` is the property before it).
   * Strings are not collections.
   */
  lemma ResolveNotCollectionIff(path: string, root: Value, reported: string, name: string)
    ensures var segs := Segments(path);
      var n := |segs|;
      Resolve(path, root) == Failure(NotCollection(reported, name)) <==>
        reported == path &&
        ((exists j :: 0 <= j < n - 1 && NotListAt(path, segs, root, j) && ParentName(segs, j) == name)
         || (FinalNotList(path, segs, root) && segs[n - 2] == name))
  {
    var segs := Segments(path);
    ResolveUnfold(path, root);
    if Walk(path, segs, root, |segs| - 1).Failure? {
      NotCollectionInWalk(path, root, reported, name);
    } else {
      NotCollectionAtEnd(path, root, reported, name);
    }
  }

  lemma NotCollectionInWalk(path: string, root: Value, reported: string, name: string)
    requires Walk(path, Segments(path), root, |Segments(path)| - 1).Failure?
    ensures var segs := Segments(path);
      var n := |segs|;
      Resolve(path, root) == Failure(NotCollection(reported, name)) <==>
        reported == path && exists j :: 0 <= j < n - 1 && NotListAt(path, segs, root, j) && ParentName(segs, j) == name
  {
    var segs := Segments(path);
    var n := |segs|;
    if Resolve(path, root) == Failure(NotCollection(reported, name)) {
      NotCollectionOrigin(path, root, reported, name);
    }
    if reported == path && exists j :: 0 <= j < n - 1 && NotListAt(path, segs, root, j) && ParentName(segs, j) == name {
      var j :| 0 <= j < n - 1 && NotListAt(path, segs, root, j) && ParentName(segs, j) == name;
      NotCollectionAtStep(path, root, name, j);
    }
  }

  /** A "not a collection" raised inside the walk comes from a numeric segment applied to a non-list. */
  lemma NotCollectionOrigin(path: string, root: Value, reported: string, name: string)
    requires Walk(path, Segments(path), root, |Segments(path)| - 1).Failure?
    requires Resolve(path, root) == Failure(NotCollection(reported, name))
    ensures var segs := Segments(path);
      reported == path && exists j :: 0 <= j < |segs| - 1 && NotListAt(path, segs, root, j) && ParentName(segs, j) == name
  {
    ResolveUnfold(path, root);
    WalkNotCollectionOrigin(path, Segments(path), root, |Segments(path)| - 1, reported, name);
  }

  /** A walk that ends in "not a collection" applied a numeric segment to a non-list. */
  lemma WalkNotCollectionOrigin(path: string, segs: seq<string>, root: Value, k: nat, reported: string, name: string)
    requires k <= |segs| && Walk(path, segs, root, k) == Failure(NotCollection(reported, name))
    ensures reported == path && exists j :: 0 <= j < k && NotListAt(path, segs, root, j) && ParentName(segs, j) == name
  {
    WalkErrorOrigin(path, segs, root, k);
    var j: nat :| OriginAt(path, segs, root, k, j);
    StepIntoErrors(path, Walk(path, segs, root, j).value, segs[j], ParentName(segs, j), reported, name);
    assert NotListAt(path, segs, root, j);
  }

  /** A numeric segment before the last, applied to a non-list, ends the resolution with "not a collection". */
  lemma NotCollectionAtStep(path: string, root: Value, name: string, j: nat)
    requires j < |Segments(path)| - 1 && NotListAt(path, Segments(path), root, j) && ParentName(Segments(path), j) == name
    ensures Resolve(path, root) == Failure(NotCollection(path, name))
  {
    var segs := Segments(path);
    StepIntoErrors(path, Walk(path, segs, root, j).value, segs[j], ParentName(segs, j), path, name);
    assert Walk(path, segs, root, j + 1) == Failure(NotCollection(path, name));
    ResolveOfFailedWalk(path, root, j + 1);
  }

  /** A walk that succeeds met no numeric segment on a non-collection. */
  lemma NoNotListInSuccessfulWalk(path: string, segs: seq<string>, root: Value, k: nat)
    requires k <= |segs| && Walk(path, segs, root, k).Success?
    ensures forall j :: 0 <= j < k ==> !NotListAt(path, segs, root, j)
  {
    forall j | 0 <= j < k ensures !NotListAt(path, segs, root, j) {
      if NotListAt(path, segs, root, j) {
        var c := Walk(path, segs, root, j).value;
        StepIntoErrors(path, c, segs[j], ParentName(segs, j), path, ParentName(segs, j));
        assert Walk(path, segs, root, j + 1) == StepInto(path, c, segs[j], ParentName(segs, j));
        WalkFailureSticks(path, segs, root, j + 1, k);
      }
    }
  }

  /** The checks on the last segment report "not a collection" for a numeric segment after a non-list property. */
  lemma FinishNotCollection(path: string, parent: Option<Cursor>, parentName: string, c: Cursor, last: string,
                            reported: string, name: string)
    ensures Finish(path, parent, parentName, c, last) == Failure(NotCollection(reported, name)) <==>
      reported == path && name == parentName && TryParseInt(last).Some? && parent.Some?
      && GetProperty(parent.value.target, parentName).Some?
      && !IsCollectionType(GetProperty(parent.value.target, parentName).value.value)
  {
  }

  lemma NotCollectionAtEnd(path: string, root: Value, reported: string, name: string)
    requires Walk(path, Segments(path), root, |Segments(path)| - 1).Success?
    ensures var segs := Segments(path);
      var n := |segs|;
      (forall j :: 0 <= j < n - 1 ==> !NotListAt(path, segs, root, j))
      && (Resolve(path, root) == Failure(NotCollection(reported, name)) <==>
          reported == path && FinalNotList(path, segs, root) && segs[n - 2] == name)
  {
    var segs := Segments(path);
    var n := |segs|;
    var c := Walk(path, segs, root, n - 1).value;
    NoNotListInSuccessfulWalk(path, segs, root, n - 1);
    ResolveFinish(path, root);
    FinishNotCollection(path, ParentCursor(path, segs, root), ParentName(segs, n - 1), c, segs[n - 1], reported, name);
    assert n >= 2 ==> ParentName(segs, n - 1) == segs[n - 2];
  }

  /**
   * The resolver as the source writes it: a loop over the segments that keeps
   * the parent and the current object and their property names, followed by
   * the checks on the last segment.  It only reads the graph.
   */
  method GetThing(path: string, root: Value) returns (r: Result<JsonPatchPath, PathError>)
    ensures r == Resolve(path, root)
  {
    var pathSections := Segments(path);
    var n := |pathSections|;
    var parentObject: Option<Value> := None;
    var parentSteps: seq<Step> := [];
    var targetObject := root;
    var targetSteps: seq<Step> := [];
    var parentPropertyName: Option<string> := None;
    var targetPropertyName: Option<string> := None;

    for k := 0 to n
      invariant k == 0 ==> targetPropertyName.None? && targetObject == root && targetSteps == []
      invariant k > 0 ==> targetPropertyName == Some(pathSections[k - 1])
      invariant k > 0 ==> Walk(path, pathSections, root, k - 1) == Success(Cursor(targetObject, targetSteps))
      invariant k <= 1 ==> parentObject.None? && parentPropertyName.None?
      invariant k > 1 ==> parentPropertyName == Some(pathSections[k - 2]) && parentObject.Some?
      invariant k > 1 ==> Walk(path, pathSections, root, k - 2) == Success(Cursor(parentObject.value, parentSteps))
    {
      if targetPropertyName.Some? {
        parentObject := Some(targetObject);
        parentSteps := targetSteps;
        var name := targetPropertyName.value;
        assert ParentName(pathSections, k - 1) == parentPropertyName.GetOr("");
        assert Walk(path, pathSections, root, k)
            == StepInto(path, Cursor(targetObject, targetSteps), name, parentPropertyName.GetOr(""));
        var ind := TryParseInt(name);
        if ind.Some? {
          // an array indexer: take the item and carry on
          if !IsCollectionType(targetObject) {
            r := Failure(NotCollection(path, parentPropertyName.GetOr("")));
            ResolveOfFailedWalk(path, root, k);
            return;
          }
          if !(0 <= ind.value < |targetObject.items|) {
            r := Failure(IndexOutOfRange);
            ResolveOfFailedWalk(path, root, k);
            return;
          }
          targetObject := targetObject.items[ind.value];
          targetSteps := targetSteps + [Index(ind.value)];
        } else {
          var property := GetProperty(targetObject, name);
          if property.None? {
            r := Failure(NullReference);
            ResolveOfFailedWalk(path, root, k);
            return;
          }
          targetObject := property.value.value;
          targetSteps := targetSteps + [Prop(name)];
          if targetObject.Null? {
            r := Failure(IsNull(path, name));
            ResolveOfFailedWalk(path, root, k);
            return;
          }
        }
      }
      parentPropertyName := targetPropertyName;
      targetPropertyName := Some(pathSections[k]);
    }

    var last := targetPropertyName.value;
    ResolveFinish(path, root);
    ParentCursorOfWalk(path, pathSections, root);
    assert n >= 2 ==> ParentCursor(path, pathSections, root) == Some(Cursor(parentObject.value, parentSteps));
    r := CheckLastSection(path, parentObject, parentSteps, parentPropertyName, targetObject, targetSteps, last);
  }

  /**
   * The tail of `GetThing`: the checks on the last segment once the loop has
   * run, written as the source's statements; `Finish` is the same checks as
   * a function, which the proofs about `Resolve` use.
   */
  method CheckLastSection(path: string, parentObject: Option<Value>, parentSteps: seq<Step>,
                          parentPropertyName: Option<string>, targetObject: Value, targetSteps: seq<Step>,
                          last: string)
    returns (r: Result<JsonPatchPath, PathError>)
    requires parentObject.Some? ==> parentPropertyName.Some?
    ensures r == Finish(path, if parentObject.Some? then Some(Cursor(parentObject.value, parentSteps)) else None,
                        parentPropertyName.GetOr(""), Cursor(targetObject, targetSteps), last)
  {
    if TryParseInt(last).Some? {
      if parentObject.None? {
        r := Failure(NullReference);
        return;
      }
      var property := GetProperty(parentObject.value, parentPropertyName.value);
      if property.None? {
        r := Failure(NullReference);
        return;
      }
      var collection := property.value.value;
      if !IsCollectionType(collection) {
        r := Failure(NotCollection(path, parentPropertyName.value));
        return;
      }
      r := Success(JsonPatchPath(parentSteps + [Prop(parentPropertyName.value)], last, true));
    } else {
      if targetObject.Null? {
        r := Failure(NullReference);
        return;
      }
      var targetProperty := GetProperty(targetObject, last);
      if targetProperty.None? {
        r := Failure(NotFound(path));
        return;
      }
      if !targetProperty.value.settable {
        r := Failure(CannotSet(path));
        return;
      }
      r := Success(JsonPatchPath(targetSteps, last, false));
    }
  }
}
