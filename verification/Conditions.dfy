/**
 * NodeClass conditions as operatorpkg keeps them, and how one sub-reconciler
 * moves its own (internal/controllers/nodeclass/resolve.go).
 */
module Conditions {
  import opened Errors
  import opened NodeClassTypes

  datatype ConditionType =
    | ImageReady | NetworkReady | FirewallsReady | SSHKeysReady | PlacementGroupReady | BootstrapDiscoveryReady
    | ValidationSucceeded

  datatype ConditionStatus = IsTrue | IsFalse | IsUnknown

  datatype Reason =
    | AwaitingReconciliation | Resolved | ResolveFailed(why: FailureReason) | Unreachable
    | NetworkHasNoSubnet | SSHKeysNarrowed | PlacementGroupAtCapacity | PlacementGroupNearCapacity
    | ClusterInfoUnavailable | JoinParametersIncomplete | InvalidCACertHash
    | DependenciesNotReady | ImageArchitectureUnsupported | CatalogNotFetched | CatalogEmpty
    | NoUsableLocations | LocationsOutsideNetworkZone | UnknownLocations | NoLocationsAvailable | LocationsNarrowed

  /** A condition message, by what it is rendered from. */
  datatype Message =
    | NoMessage
    | FailureText(selectors: seq<Selector>, err: Err)
    | ErrorText(err: Err)
    | Awaiting(conditions: seq<ConditionType>)
    | MissingKeys(selectors: seq<Selector>)
    | Pins(bad: seq<string>)
    | Architecture(name: string)
    | Dropped(outsideZone: seq<string>, zone: string, unknown: seq<string>)

  /** `since` is the last transition time. */
  datatype Condition = Condition(
    status: ConditionStatus, reason: Reason, message: Message, observedGeneration: nat, since: int)

  /** The instant and generation at which a pass writes conditions. */
  datatype Stamp = Stamp(generation: nat, now: int)

  /** ConditionSet.Set: stamps the generation, and moves the transition time only when the status changes. */
  function Set(at: Stamp, c: Condition, status: ConditionStatus, reason: Reason, message: Message): Condition
  {
    Condition(status, reason, message, at.generation, if c.status == status then c.since else at.now)
  }

  function SetTrue(at: Stamp, c: Condition): Condition
  {
    Set(at, c, IsTrue, Resolved, NoMessage)
  }

  /** What StatusConditions() makes of an absent condition. */
  function Initial(at: Stamp): Condition
  {
    Condition(IsUnknown, AwaitingReconciliation, NoMessage, at.generation, at.now)
  }

  /** noteUnreachable: a transient failure is recorded only where nothing has ever resolved. */
  function NoteUnreachable(at: Stamp, c: Condition, err: Err): Condition
  {
    if c.status.IsUnknown? then Set(at, c, IsUnknown, Unreachable, ErrorText(err)) else c
  }

  /** True, and about the current revision of the spec. */
  predicate Holds(c: Condition, generation: nat)
  {
    c.status.IsTrue? && c.observedGeneration == generation
  }

  /** One condition together with the status field its sub-reconciler publishes. */
  datatype Cell<+F> = Cell(condition: Condition, field: F)

  /** How one resolver came out in one pass. */
  datatype Outcome = Success | Misconfigured | Transient
}
