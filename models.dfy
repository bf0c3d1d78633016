/** The records passed between the components: resolved locations and typed operations. */
module Models {
  import opened Wrappers
  import opened ObjectModel
  import opened IntParse

  /**
   * A resolved location.  `TargetObject` of the source is the value reached
   * from the root by `targetSteps`; `targetPropertyName` is a property of it
   * or, when `isCollection`, the text of an index into it.
   */
  datatype JsonPatchPath = JsonPatchPath(targetSteps: seq<Step>, targetPropertyName: string, isCollection: bool)

  /** The object or list the location designates in `root`, if it still exists. */
  function TargetObject(root: Value, p: JsonPatchPath): Option<Value> {
    Get(root, p.targetSteps)
  }

  /**
   * What the resolver guarantees of a location it returns: the target is a
   * list and the member parses as an int, or the target is an object with a
   * settable property of that name.
   */
  predicate ValidPath(root: Value, p: JsonPatchPath) {
    match TargetObject(root, p)
    case None => false
    case Some(t) =>
      if p.isCollection then IsCollectionType(t) && TryParseInt(p.targetPropertyName).Some?
      else GetProperty(t, p.targetPropertyName).Some? && GetProperty(t, p.targetPropertyName).value.settable
  }

  /** The six verbs of section 4 of RFC 6902, named as the enum's members are. */
  datatype JsonPatchOpCode = add | remove | replace | move | copy | test

  /** One typed patch operation; `value` is None when the document has no "value" member. */
  datatype JsonPatchOperation = JsonPatchOperation(op: JsonPatchOpCode, path: string, value: Option<Json>, from: Option<string>)
}
