/**
 * Hetzner error codes and how the provider reacts to them
 * (internal/hcloudapi/errors.go), over trees of wrapped Go errors.
 */
module Errors {
  import opened Common

  /** The Hetzner codes the provider names; every other spelling is `OtherCode`. */
  datatype ErrorCode =
    | ResourceUnavailable | PlacementError | NoSpaceLeftInLocation | Maintenance
    | ResourceLimitExceeded
    | RateLimitExceeded | ServiceError | ServerError | BadGateway | Timeout | Conflict
    | Locked | ResourceLocked | Protected | JSONError | RobotUnavailable | UnknownError
    | InvalidInput | NotFoundCode | UnsupportedError | InvalidServerType | UniquenessError
    | NetworksOverlap | ServerAlreadyAttached
    | Forbidden | Unauthorized
    | OtherCode(spelling: string)

  datatype Class = ClassNone | ClassCapacity | ClassQuota | ClassTransient | ClassConfig | ClassFatal

  /**
   * A Go error value. `Wrap` unwraps to one error and `Join` to several, each
   * with text of its own. `Api` is hcloud.Error (with the response it may
   * carry) and `ActionFailure` is hcloud.ActionError; `byPointer` marks the
   * pointer form, which `errors.As` on the value type does not match.
   */
  datatype Err =
    | Plain(text: string)
    | NotFound(kind: string)
    | Wrap(text: string, inner: Err)
    | Join(text: string, inners: seq<Err>)
    | Api(code: ErrorCode, message: string, response: Option<string>, byPointer: bool)
    | ActionFailure(code: ErrorCode, message: string, action: Option<nat>, byPointer: bool)

  /** Every error of the tree, parents first: the order of errors.As and of eachNode. */
  function Nodes(e: Err): seq<Err>
    decreases e, 0
  {
    [e] + match e
          case Wrap(_, inner) => Nodes(inner)
          case Join(_, inners) => AllNodes(inners)
          case _ => []
  }

  function AllNodes(es: seq<Err>): seq<Err>
    decreases es, 1
  {
    if es == [] then [] else Nodes(es[0]) + AllNodes(es[1..])
  }

  /** The first node accepted by `pick`, in the depth-first order of errors.As. */
  function FindNode<T>(e: Err, pick: Err -> Option<T>): Option<T>
    decreases e, 0
  {
    if pick(e).Some? then pick(e)
    else match e
      case Wrap(_, inner) => FindNode(inner, pick)
      case Join(_, inners) => FindFirst(inners, pick)
      case _ => None
  }

  function FindFirst<T>(es: seq<Err>, pick: Err -> Option<T>): Option<T>
    decreases es, 1
  {
    if es == [] then None
    else
      var r := FindNode(es[0], pick);
      if r.Some? then r else FindFirst(es[1..], pick)
  }

  function PickApi(e: Err): Option<ErrorCode>
  {
    if e.Api? && !e.byPointer then Some(e.code) else None
  }

  function PickAction(e: Err): Option<ErrorCode>
  {
    if e.ActionFailure? && !e.byPointer then Some(e.code) else None
  }

  function PickNotFound(e: Err): Option<string>
  {
    if e.NotFound? then Some(e.kind) else None
  }

  /** Code: the synchronous error's code wins over the action's. */
  function Code(e: Err): Option<ErrorCode>
  {
    var api := FindNode(e, PickApi);
    if api.Some? then api else FindNode(e, PickAction)
  }

  predicate IsNotFound(e: Err)
  {
    FindNode(e, PickNotFound).Some?
  }

  function ClassOf(code: ErrorCode): Class
  {
    match code
    case ResourceUnavailable | PlacementError | NoSpaceLeftInLocation | Maintenance => ClassCapacity
    case ResourceLimitExceeded => ClassQuota
    case InvalidInput | NotFoundCode | UnsupportedError | InvalidServerType | UniquenessError
       | NetworksOverlap | ServerAlreadyAttached => ClassConfig
    case Forbidden | Unauthorized => ClassFatal
    case _ => ClassTransient
  }

  function Classify(err: Option<Err>): Class
  {
    if err.None? then ClassNone
    else
      var code := Code(err.value);
      if code.None? then ClassTransient else ClassOf(code.value)
  }

  /** Why a resolver failure belongs on the NodeClass (internal/controllers/nodeclass/resolve.go). */
  datatype FailureReason = ReasonNotFound | ReasonInvalidConfiguration | ReasonCredentialRejected

  function ConfigFailure(e: Err): Option<FailureReason>
  {
    if IsNotFound(e) then Some(ReasonNotFound)
    else match Classify(Some(e))
      case ClassConfig => Some(ReasonInvalidConfiguration)
      case ClassFatal => Some(ReasonCredentialRejected)
      case _ => None
  }

  // ---------------------------------------------------------------- what the answers mean

  /** `i` is the first node of the tree that `pick` accepts. */
  ghost predicate FirstPicked<T(!new)>(ns: seq<Err>, pick: Err -> Option<T>, i: nat)
  {
    i < |ns| && pick(ns[i]).Some? && forall j | 0 <= j < i :: pick(ns[j]).None?
  }

  ghost function FirstIn<T(!new)>(ns: seq<Err>, pick: Err -> Option<T>): (r: Option<T>)
    ensures r.None? <==> forall i | 0 <= i < |ns| :: pick(ns[i]).None?
    ensures r.Some? ==> exists i: nat :: FirstPicked(ns, pick, i) && pick(ns[i]) == r
  {
    if ns == [] then None
    else if pick(ns[0]).Some? then
      assert FirstPicked(ns, pick, 0);
      pick(ns[0])
    else
      var r := FirstIn(ns[1..], pick);
      assert r.Some? ==> exists i: nat :: FirstPicked(ns, pick, i) && pick(ns[i]) == r by {
        if r.Some? {
          var i: nat :| FirstPicked(ns[1..], pick, i) && pick(ns[1..][i]) == r;
          assert ns[1..][i] == ns[i + 1];
          assert forall j | 0 < j < i + 1 :: ns[j] == ns[1..][j - 1];
          assert FirstPicked(ns, pick, i + 1);
        }
      }
      r
  }

  lemma {:induction false} FirstInAppend<T(!new)>(a: seq<Err>, b: seq<Err>, pick: Err -> Option<T>)
    ensures FirstIn(a + b, pick) == if FirstIn(a, pick).Some? then FirstIn(a, pick) else FirstIn(b, pick)
  {
    if a == [] {
      assert a + b == b;
    } else {
      assert (a + b)[1..] == a[1..] + b;
      FirstInAppend(a[1..], b, pick);
    }
  }

  /** errors.As finds the first acceptable error of the tree, parents first. */
  lemma {:induction false} FindNodeIsFirst<T(!new)>(e: Err, pick: Err -> Option<T>)
    ensures FindNode(e, pick) == FirstIn(Nodes(e), pick)
    decreases e, 0
  {
    match e
    case Wrap(_, inner) =>
      FindNodeIsFirst(inner, pick);
      assert Nodes(e)[1..] == Nodes(inner);
    case Join(_, inners) =>
      FindFirstIsFirst(inners, pick);
      assert Nodes(e)[1..] == AllNodes(inners);
    case _ =>
      assert Nodes(e) == [e] && Nodes(e)[1..] == [];
  }

  lemma {:induction false} FindFirstIsFirst<T(!new)>(es: seq<Err>, pick: Err -> Option<T>)
    ensures FindFirst(es, pick) == FirstIn(AllNodes(es), pick)
    decreases es, 1
  {
    if es != [] {
      FindNodeIsFirst(es[0], pick);
      FindFirstIsFirst(es[1..], pick);
      FirstInAppend(Nodes(es[0]), AllNodes(es[1..]), pick);
    }
  }

  /** Code is that of the first API error anywhere in the tree, and only failing that of the first action error. */
  lemma CodeExact(e: Err)
    ensures FirstIn(Nodes(e), PickApi).Some? ==> Code(e) == FirstIn(Nodes(e), PickApi)
    ensures FirstIn(Nodes(e), PickApi).None? ==> Code(e) == FirstIn(Nodes(e), PickAction)
  {
    FindNodeIsFirst(e, PickApi);
    FindNodeIsFirst(e, PickAction);
  }

  /** Some error of the tree says that the resource does not exist. */
  ghost predicate Missing(e: Err)
  {
    exists i :: 0 <= i < |Nodes(e)| && Nodes(e)[i].NotFound?
  }

  lemma NotFoundExact(e: Err)
    ensures IsNotFound(e) <==> Missing(e)
  {
    FindNodeIsFirst(e, PickNotFound);
  }

  const CAPACITY_CODES := {ResourceUnavailable, PlacementError, NoSpaceLeftInLocation, Maintenance}
  const CONFIG_CODES := {
    InvalidInput, NotFoundCode, UnsupportedError, InvalidServerType, UniquenessError, NetworksOverlap, ServerAlreadyAttached}
  const CREDENTIAL_CODES := {Forbidden, Unauthorized}

  /**
   * What a failed resolve says of the NodeClass, by Hetzner code: a missing
   * resource first, then a bad request or a bad credential; every other code,
   * unknown ones and none included, is transient.
   */
  lemma ConfigFailureExact(e: Err)
    ensures ConfigFailure(e) ==
      if Missing(e) then Some(ReasonNotFound)
      else if Code(e).Some? && Code(e).value in CONFIG_CODES then Some(ReasonInvalidConfiguration)
      else if Code(e).Some? && Code(e).value in CREDENTIAL_CODES then Some(ReasonCredentialRejected)
      else None
  {
    NotFoundExact(e);
  }
}
