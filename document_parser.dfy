/**
 * `JsonPatchRequestConverter.Deserialize`: one JSON object of the patch
 * document, seen as a dictionary, becomes a typed operation or a parse
 * error, the checks running in a fixed order.  The serializer that turns the
 * request body into those dictionaries is not modelled: its outcome is a
 * `Document`.
 */
module DocumentParser {
  import opened Wrappers
  import opened ObjectModel
  import opened Models

  /**
   * One object of the document.  The serializer matches member names
   * without regard to case; here they are written in lower case.
   */
  type OperationObject = map<string, Json>

  /** The request body as the serializer reads it: unreadable, or an array of objects. */
  datatype Document = Malformed(message: string) | Elements(objects: seq<OperationObject>)

  const OpMissing := "Cannot deserialize JSON patch operation. The 'op' property must be present"
  const OpNotString := "Cannot deserialize JSON patch operation. The 'op' property must be a string"
  const OpNotValid := "Cannot deserialize JSON patch operation. The 'op' property is not valid"
  const PathMissing := "Cannot deserialize JSON patch operation. The 'path' property must be present"
  const PathNotString := "Cannot deserialize JSON patch operation. The 'path' property must be a string"

  /** The name of each member of `JsonPatchOpCode`. */
  function OpName(c: JsonPatchOpCode): string {
    match c
    case add => "add"
    case remove => "remove"
    case replace => "replace"
    case move => "move"
    case copy => "copy"
    case test => "test"
  }

  /** `Enum.TryParse` on the six member names, compared exactly. */
  function ParseOpCode(s: string): Option<JsonPatchOpCode> {
    if s == "add" then Some(add)
    else if s == "remove" then Some(remove)
    else if s == "replace" then Some(replace)
    else if s == "move" then Some(move)
    else if s == "copy" then Some(copy)
    else if s == "test" then Some(test)
    else None
  }

  /** Parsing an op code reads back exactly the six names, and nothing else. */
  lemma OpNameRoundTrip(c: JsonPatchOpCode, s: string)
    ensures ParseOpCode(OpName(c)) == Some(c)
    ensures ParseOpCode(s) == Some(c) ==> s == OpName(c)
  {
  }

  function Deserialize(d: OperationObject): Result<JsonPatchOperation, string> {
    if "op" !in d then Failure(OpMissing)
    else if !d["op"].JString? then Failure(OpNotString)
    else match ParseOpCode(d["op"].s)
      case None => Failure(OpNotValid)
      case Some(op) =>
        if "path" !in d then Failure(PathMissing)
        else if !d["path"].JString? then Failure(PathNotString)
        else
          var value := if "value" in d then Some(d["value"]) else None;
          var from := if "from" in d && d["from"].JString? then Some(d["from"].s) else None;
          Success(JsonPatchOperation(op, d["path"].s, value, from))
  }

  /** The object a well-formed operation is written as. */
  function ToObject(op: JsonPatchOperation): OperationObject {
    var base := map["op" := JString(OpName(op.op)), "path" := JString(op.path)];
    var withValue := if op.value.Some? then base["value" := op.value.value] else base;
    if op.from.Some? then withValue["from" := JString(op.from.value)] else withValue
  }

  /** Every operation reads back from the object it is written as. */
  lemma DeserializeToObject(op: JsonPatchOperation)
    ensures Deserialize(ToObject(op)) == Success(op)
  {
    OpNameRoundTrip(op.op, OpName(op.op));
  }

  /**
   * An object that reads as an operation carries that operation's members:
   * its op name and path as strings, its value verbatim, and its "from" when
   * that is a string; any other "from", and any other member, is ignored.
   */
  lemma DeserializeReadsMembers(d: OperationObject)
    requires Deserialize(d).Success?
    ensures var op := Deserialize(d).value;
      && d["op"] == JString(OpName(op.op))
      && d["path"] == JString(op.path)
      && (op.value.Some? <==> "value" in d) && (op.value.Some? ==> d["value"] == op.value.value)
      && (op.from.Some? <==> "from" in d && d["from"].JString?) && (op.from.Some? ==> d["from"] == JString(op.from.value))
  {
    var op := Deserialize(d).value;
    OpNameRoundTrip(op.op, d["op"].s);
  }

  /**
   * Each message is reported exactly when its check is the first to fail,
   * in the order op present, op a string, op a known name, path present,
   * path a string.
   */
  lemma DeserializeErrors(d: OperationObject)
    ensures Deserialize(d) == Failure(OpMissing) <==> "op" !in d
    ensures Deserialize(d) == Failure(OpNotString) <==> "op" in d && !d["op"].JString?
    ensures Deserialize(d) == Failure(OpNotValid) <==> "op" in d && d["op"].JString? && ParseOpCode(d["op"].s).None?
    ensures Deserialize(d) == Failure(PathMissing) <==>
      "op" in d && d["op"].JString? && ParseOpCode(d["op"].s).Some? && "path" !in d
    ensures Deserialize(d) == Failure(PathNotString) <==>
      "op" in d && d["op"].JString? && ParseOpCode(d["op"].s).Some? && "path" in d && !d["path"].JString?
    ensures Deserialize(d).Success? <==>
      "op" in d && d["op"].JString? && ParseOpCode(d["op"].s).Some? && "path" in d && d["path"].JString?
  {
  }

  /**
   * An op error wins over any path error: when the op member is unusable,
   * the outcome is the same whatever the rest of the object holds.
   */
  lemma OpCheckedFirst(d: OperationObject, e: OperationObject)
    requires "op" in d <==> "op" in e
    requires "op" in d ==> d["op"] == e["op"]
    requires "op" !in d || !d["op"].JString? || ParseOpCode(d["op"].s).None?
    ensures Deserialize(d) == Deserialize(e) && Deserialize(d).Failure?
  {
  }

  /**
   * The serializer converts the array's objects in order and gives up at
   * the first that does not convert, with that object's message.
   */
  function DeserializeEach(objects: seq<OperationObject>): (r: Result<seq<JsonPatchOperation>, string>)
    ensures r.Success? ==> |r.value| == |objects| && forall i :: 0 <= i < |objects| ==> Deserialize(objects[i]) == Success(r.value[i])
    ensures r.Failure? ==> exists i :: 0 <= i < |objects| && Deserialize(objects[i]) == Failure(r.error)
                                      && forall j :: 0 <= j < i ==> Deserialize(objects[j]).Success?
    decreases |objects|
  {
    if objects == [] then Success([])
    else match Deserialize(objects[0])
      case Failure(e) => Failure(e)
      case Success(op) =>
        match DeserializeEach(objects[1..])
        case Failure(e) =>
          var i :| 0 <= i < |objects[1..]| && Deserialize(objects[1..][i]) == Failure(e)
                   && forall j :: 0 <= j < i ==> Deserialize(objects[1..][j]).Success?;
          assert Deserialize(objects[i + 1]) == Failure(e);
          Failure(e)
        case Success(ops) => Success([op] + ops)
  }

  /** `JsonPatchDocumentParser.DeserializeJsonPatchRequest`: the operations, or the message of what went wrong. */
  function DeserializeJsonPatchRequest(doc: Document): Result<seq<JsonPatchOperation>, string> {
    match doc
    case Malformed(m) => Failure(m)
    case Elements(objects) => DeserializeEach(objects)
  }
}
