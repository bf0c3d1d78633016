/**
 * `JsonPatchExecutor.Patch`: parse the document, then for each operation in
 * order resolve its path (and its "from" for move and copy) against the
 * current graph and run the verb, stopping at the first failure with a
 * categorised result.  Operations already applied stay applied.
 */
module JsonPatchExecutor {
  import opened Wrappers
  import opened ObjectModel
  import opened Models
  import opened PathParser
  import opened DocumentParser
  import opened OperationExecutor

  datatype JsonPatchFailureReason = TestFailed | CouldNotParseJson | CouldNotParsePath | CouldNotParseFrom | OperationFailed

  /** `JsonPatchResult`; `Message` is null unless a failure set it. */
  datatype JsonPatchResult = JsonPatchResult(succeeded: bool, failureReason: JsonPatchFailureReason, message: Option<string>)

  /**
   * What `new JsonPatchResult { Succeeded = true }` holds: the reason keeps
   * the enum's default, its first member.
   */
  const Succeeded := JsonPatchResult(true, TestFailed, None)

  function Failure(reason: JsonPatchFailureReason, error: string): JsonPatchResult {
    JsonPatchResult(false, reason, Some(error))
  }

  /**
   * `ParsePath`: the resolver's location, or its message.  An operation
   * without "from" passes null; the model takes the resolver's dereference
   * of it as the error.
   */
  function Locate(path: Option<string>, root: Value): (r: Result<JsonPatchPath, string>)
    ensures r.Success? ==> path.Some? && Resolve(path.value, root).Success? && ValidPath(root, r.value)
    ensures r.Failure? ==> path.None? || Resolve(path.value, root).Failure?
  {
    match path
    case None => Result.Failure(Message(NullReference))
    case Some(s) =>
      match Resolve(s, root)
      case Failure(e) => Result.Failure(Message(e))
      case Success(p) => ResolvedPathIsValid(s, root); Result.Success(p)
  }

  /**
   * `ParsePath`, whose code is not part of this model: written as a method
   * that runs `GetThing` and turns any exception it throws into the error,
   * as the executor's use of its result and its tests imply; `Locate` is
   * its specification.
   */
  method ParsePath(path: Option<string>, root: Value) returns (r: Result<JsonPatchPath, string>)
    ensures r == Locate(path, root)
  {
    if path.None? {
      return Result.Failure(Message(NullReference));
    }
    var resolved := GetThing(path.value, root);
    if resolved.Failure? {
      return Result.Failure(Message(resolved.error));
    }
    ResolvedPathIsValid(path.value, root);
    return Result.Success(resolved.value);
  }

  /** After one operation: carry on with the graph it left, or stop with a result. */
  datatype StepOutcome = Continue(root: Value) | Stop(result: JsonPatchResult, root: Value)

  /** A verb's report, with the reason its failure is filed under. */
  function Outcome(e: Exec, reason: JsonPatchFailureReason): StepOutcome {
    if e.result.Ok? then Continue(e.root) else Stop(Failure(reason, e.result.message), e.root)
  }

  /**
   * One pass of the loop body.  The primary path is resolved first; only
   * move and copy resolve "from"; only a failing test is filed as
   * `TestFailed`.
   */
  function ApplyOperation(codec: Codec, op: JsonPatchOperation, root: Value): (r: StepOutcome)
    ensures r.Stop? ==> !r.result.succeeded && r.result.message.Some? && r.result.failureReason != CouldNotParseJson
    ensures Locate(Some(op.path), root).Failure? ==>
      r == Stop(Failure(CouldNotParsePath, Locate(Some(op.path), root).error), root)
    ensures r.Stop? && r.result.failureReason == CouldNotParseFrom ==>
      (op.op == move || op.op == copy) && Locate(op.from, root).Failure? && r.root == root
    ensures (op.op == move || op.op == copy) && Locate(Some(op.path), root).Success? && Locate(op.from, root).Failure? ==>
      r == Stop(Failure(CouldNotParseFrom, Locate(op.from, root).error), root)
    ensures r.Stop? ==> (r.result.failureReason == TestFailed <==> op.op == test && Locate(Some(op.path), root).Success?)
    ensures op.op == test ==> r.root == root
  {
    match Locate(Some(op.path), root)
    case Failure(e) => Stop(Failure(CouldNotParsePath, e), root)
    case Success(path) =>
      match op.op
      case replace => Outcome(Replace(codec, root, path, op.value), OperationFailed)
      case move =>
        (match Locate(op.from, root)
         case Failure(e) => Stop(Failure(CouldNotParseFrom, e), root)
         case Success(from) => Outcome(Move(codec, root, from, path), OperationFailed))
      case copy =>
        (match Locate(op.from, root)
         case Failure(e) => Stop(Failure(CouldNotParseFrom, e), root)
         case Success(from) => Outcome(Copy(codec, root, from, path), OperationFailed))
      case add => Outcome(Add(codec, root, path, op.value), OperationFailed)
      case remove => Outcome(RemoveSpec(root, path), OperationFailed)
      case test =>
        match Test(codec, root, path, op.value)
        case Ok => Continue(root)
        case Fail(m) => Stop(Failure(TestFailed, m), root)
  }

  /**
   * Once the path resolves, each verb runs on the location: a failing verb
   * stops the run as `OperationFailed` with the verb's message and leaves
   * the graph the verb left, a failing test as `TestFailed` with the graph
   * untouched; move and copy first resolve "from", an absent one included,
   * and stop as `CouldNotParseFrom` when it does not resolve.
   */
  lemma ApplyOperationDispatch(codec: Codec, op: JsonPatchOperation, root: Value)
    requires Locate(Some(op.path), root).Success?
    ensures op.from.None? ==> Locate(op.from, root) == Result.Failure(Message(NullReference))
    ensures var p := Locate(Some(op.path), root).value;
      var r := ApplyOperation(codec, op, root);
      && (op.op == replace ==> r == Outcome(Replace(codec, root, p, op.value), OperationFailed))
      && (op.op == add ==> r == Outcome(Add(codec, root, p, op.value), OperationFailed))
      && (op.op == remove ==> r == Outcome(RemoveSpec(root, p), OperationFailed))
      && (op.op == test ==> r == (if Test(codec, root, p, op.value).Ok? then Continue(root)
                                  else Stop(Failure(TestFailed, Test(codec, root, p, op.value).message), root)))
      && ((op.op == move || op.op == copy) && Locate(op.from, root).Failure? ==>
            r == Stop(Failure(CouldNotParseFrom, Locate(op.from, root).error), root))
      && (op.op == move && Locate(op.from, root).Success? ==>
            r == Outcome(Move(codec, root, Locate(op.from, root).value, p), OperationFailed))
      && (op.op == copy && Locate(op.from, root).Success? ==>
            r == Outcome(Copy(codec, root, Locate(op.from, root).value, p), OperationFailed))
  {
  }

  /** The result of a whole run and the graph it leaves. */
  datatype Patched = Patched(result: JsonPatchResult, root: Value)

  /**
   * The loop over the operations: every one runs in order until one stops
   * the run.  A run that gets through reports `Succeeded`, with no message.
   */
  function ApplyOperations(codec: Codec, ops: seq<JsonPatchOperation>, root: Value): (r: Patched)
    ensures r.result.succeeded <==> r.result.message.None?
    ensures r.result.succeeded ==> r.result == Succeeded
    ensures r.result.failureReason == CouldNotParseJson ==> r.result.succeeded
    decreases |ops|
  {
    if ops == [] then Patched(Succeeded, root)
    else match ApplyOperation(codec, ops[0], root)
      case Stop(result, after) => Patched(result, after)
      case Continue(after) => ApplyOperations(codec, ops[1..], after)
  }

  /** `Patch`, on the caller's graph: a document that does not parse runs nothing. */
  function PatchSpec(codec: Codec, doc: Document, root: Value): Patched {
    match DeserializeJsonPatchRequest(doc)
    case Failure(m) => Patched(Failure(CouldNotParseJson, m), root)
    case Success(ops) => ApplyOperations(codec, ops, root)
  }

  /** `JsonPatchExecutor.Patch`: the operations mutate `target` in place, one by one. */
  method Patch(codec: Codec, doc: Document, target: Graph) returns (r: JsonPatchResult)
    modifies target
    ensures Patched(r, target.root) == PatchSpec(codec, doc, old(target.root))
  {
    var parsed := DeserializeJsonPatchRequest(doc);
    if parsed.Failure? {
      return Failure(CouldNotParseJson, parsed.error);
    }
    var operations := parsed.value;
    for k := 0 to |operations|
      invariant ApplyOperations(codec, operations[k..], target.root) == ApplyOperations(codec, operations, old(target.root))
    {
      var operation := operations[k];
      assert operations[k..][0] == operation && operations[k..][1..] == operations[k + 1..];
      var pathResult := ParsePath(Some(operation.path), target.root);
      if pathResult.Failure? {
        return Failure(CouldNotParsePath, pathResult.error);
      }
      var path := pathResult.value;
      var e: Exec;
      var reason := OperationFailed;
      match operation.op {
        case replace =>
          e := Replace(codec, target.root, path, operation.value);
        case move =>
          var moveFrom := ParsePath(operation.from, target.root);
          if moveFrom.Failure? {
            return Failure(CouldNotParseFrom, moveFrom.error);
          }
          e := Move(codec, target.root, moveFrom.value, path);
        case copy =>
          var copyFrom := ParsePath(operation.from, target.root);
          if copyFrom.Failure? {
            return Failure(CouldNotParseFrom, copyFrom.error);
          }
          e := Copy(codec, target.root, copyFrom.value, path);
        case add =>
          e := Add(codec, target.root, path, operation.value);
        case remove =>
          var removed := Remove(target, path);
          e := Exec(removed, target.root);
        case test =>
          e := Exec(Test(codec, target.root, path, operation.value), target.root);
          reason := TestFailed;
      }
      target.root := e.root;
      if e.result.Fail? {
        return Failure(reason, e.result.message);
      }
    }
    return Succeeded;
  }

  /** A malformed document reports `CouldNotParseJson` with the parser's message and leaves the graph alone. */
  lemma MalformedRunsNothing(codec: Codec, doc: Document, root: Value)
    requires DeserializeJsonPatchRequest(doc).Failure?
    ensures PatchSpec(codec, doc, root) == Patched(Failure(CouldNotParseJson, DeserializeJsonPatchRequest(doc).error), root)
  {
  }

  /**
   * Running `ops1 + ops2` runs `ops1` and, only if all of it succeeded,
   * `ops2` on the graph it left; a failure in `ops1` is the whole outcome.
   */
  lemma {:induction false} ApplyOperationsAppend(codec: Codec, ops1: seq<JsonPatchOperation>, ops2: seq<JsonPatchOperation>, root: Value)
    ensures ApplyOperations(codec, ops1 + ops2, root) ==
      (var first := ApplyOperations(codec, ops1, root);
       if first.result.succeeded then ApplyOperations(codec, ops2, first.root) else first)
    decreases |ops1|
  {
    if ops1 == [] {
      assert ops1 + ops2 == ops2;
    } else {
      assert (ops1 + ops2)[0] == ops1[0] && (ops1 + ops2)[1..] == ops1[1..] + ops2;
      match ApplyOperation(codec, ops1[0], root)
      case Stop(result, after) =>
      case Continue(after) => ApplyOperationsAppend(codec, ops1[1..], ops2, after);
    }
  }

  /**
   * When the first `k` operations succeed and operation `k` stops, the run
   * ends there: its result and graph are that operation's, whatever follows,
   * and what the first `k` did stays done.
   */
  lemma StopsAtFirstFailure(codec: Codec, ops: seq<JsonPatchOperation>, root: Value, k: nat)
    requires k < |ops|
    requires ApplyOperations(codec, ops[..k], root).result.succeeded
    requires ApplyOperation(codec, ops[k], ApplyOperations(codec, ops[..k], root).root).Stop?
    ensures var s := ApplyOperation(codec, ops[k], ApplyOperations(codec, ops[..k], root).root);
      ApplyOperations(codec, ops, root) == Patched(s.result, s.root)
  {
    assert ops == ops[..k] + ops[k..];
    ApplyOperationsAppend(codec, ops[..k], ops[k..], root);
  }

  /** An operation that lets the run continue hands the rest of the run the graph it left. */
  lemma ContinueUnfold(codec: Codec, ops: seq<JsonPatchOperation>, root: Value, after: Value)
    requires ops != [] && ApplyOperation(codec, ops[0], root) == Continue(after)
    ensures ApplyOperations(codec, ops, root) == ApplyOperations(codec, ops[1..], after)
  {
  }

  /** Operation `k` is the one that stopped the run of `ops` from `root`, all before it succeeding. */
  predicate StoppedAt(codec: Codec, ops: seq<JsonPatchOperation>, root: Value, k: int) {
    && 0 <= k < |ops|
    && ApplyOperations(codec, ops[..k], root).result.succeeded
    && ApplyOperation(codec, ops[k], ApplyOperations(codec, ops[..k], root).root)
       == Stop(ApplyOperations(codec, ops, root).result, ApplyOperations(codec, ops, root).root)
  }

  /**
   * A run that fails was stopped by one operation, after all those before
   * it succeeded; the run's result and graph are the ones it stopped with.
   */
  lemma {:induction false} FailingOperation(codec: Codec, ops: seq<JsonPatchOperation>, root: Value)
    requires !ApplyOperations(codec, ops, root).result.succeeded
    ensures exists k :: StoppedAt(codec, ops, root, k)
    decreases |ops|
  {
    assert ops != [];
    var s := ApplyOperation(codec, ops[0], root);
    if s.Stop? {
      StoppedAtFirst(codec, ops, root);
    } else {
      ContinueUnfold(codec, ops, root, s.root);
      FailingOperation(codec, ops[1..], s.root);
      var k :| StoppedAt(codec, ops[1..], s.root, k);
      StoppedAtShift(codec, ops, root, s.root, k);
    }
  }

  lemma StoppedAtFirst(codec: Codec, ops: seq<JsonPatchOperation>, root: Value)
    requires ops != [] && ApplyOperation(codec, ops[0], root).Stop?
    ensures StoppedAt(codec, ops, root, 0)
  {
    assert ops[..0] == [];
  }

  lemma StoppedAtShift(codec: Codec, ops: seq<JsonPatchOperation>, root: Value, after: Value, k: int)
    requires ops != [] && ApplyOperation(codec, ops[0], root) == Continue(after)
    requires StoppedAt(codec, ops[1..], after, k)
    ensures StoppedAt(codec, ops, root, k + 1)
  {
    var prefix := ops[..k + 1];
    assert prefix[0] == ops[0] && prefix[1..] == ops[1..][..k];
    ContinueUnfold(codec, prefix, root, after);
    ContinueUnfold(codec, ops, root, after);
    assert ops[k + 1] == ops[1..][k];
  }

  /**
   * The reason a run fails names the stage that failed: `CouldNotParseFrom`
   * only for a move or copy, `TestFailed` only for a test, never
   * `CouldNotParseJson` once the document has parsed.
   */
  lemma FailureReasons(codec: Codec, ops: seq<JsonPatchOperation>, root: Value)
    requires !ApplyOperations(codec, ops, root).result.succeeded
    ensures var r := ApplyOperations(codec, ops, root).result;
      && r.failureReason != CouldNotParseJson
      && (r.failureReason == CouldNotParseFrom ==> exists k :: 0 <= k < |ops| && (ops[k].op == move || ops[k].op == copy))
      && (r.failureReason == TestFailed ==> exists k :: 0 <= k < |ops| && ops[k].op == test)
  {
    FailingOperation(codec, ops, root);
    var k :| StoppedAt(codec, ops, root, k);
  }
}
