/**
 * The NodeClass controller: the object it works on in place, the seven
 * sub-reconcilers, and the loop over them
 * (internal/controllers/nodeclass/controller.go).
 */
module NodeClassController {
  import opened Common
  import opened Errors
  import opened NodeClassTypes
  import opened Conditions
  import opened Resolvers
  import opened Validation
  import opened NodeClassPass

  const RESOLVED_REQUEUE := 300
  const MISCONFIGURED_REQUEUE := 60

  function RequeueFor(o: Outcome): Option<int>
  {
    match o
    case Success => Some(RESOLVED_REQUEUE)
    case Misconfigured => Some(MISCONFIGURED_REQUEUE)
    case Transient => None
  }

  /** waitingOnCatalog: never validated, or parked on a catalog that says nothing yet. */
  predicate WaitingOnCatalog(o: NodeClass)
  {
    ValidationSucceeded in o.conditions ==>
      var c := o.conditions[ValidationSucceeded];
      c.status.IsUnknown? && (c.reason == CatalogNotFetched || c.reason == CatalogEmpty)
  }

  /** A class that was never validated waits; a pass leaves its class waiting exactly when the catalog is all it lacks. */
  lemma WaitingAfterPassIff(o: NodeClass, a: Answers, now: int)
    ensures ValidationSucceeded !in o.conditions ==> WaitingOnCatalog(o)
    ensures WaitingOnCatalog(Pass(o, a, now)) <==>
      AllKeepHolding(o, a) && ArchitectureSupported(ImageSeen(o, a)) && !CatalogKnown(a.catalog)
  {
    PassVerdict(o, a, now);
  }

  /** The narrowing event, if any, that the sub-reconciler owning `t` publishes. */
  predicate Published(t: ConditionType, before: Condition, after: Condition)
  {
    || (t == SSHKeysReady && Announces(before, after, SSHKeysNarrowed))
    || (t == ValidationSucceeded && Announces(before, after, LocationsNarrowed))
  }

  /** The sub-reconciler owning `t` asks to be run again soon. */
  ghost predicate AsksSoon(o: NodeClass, a: Answers, t: ConditionType)
    requires HasAll(o)
  {
    if t == ValidationSucceeded then !o.conditions[t].status.IsTrue? else OutcomeOf(o.spec, a, t).Misconfigured?
  }

  ghost function RequeueAfter(o: NodeClass, a: Answers, t: ConditionType): Option<int>
    requires HasAll(o)
  {
    if OutcomeOf(o.spec, a, t).Transient? then None
    else Some(if AsksSoon(o, a, t) then MISCONFIGURED_REQUEUE else RESOLVED_REQUEUE)
  }

  /** Without a transient failure, some sub-reconciler asks to run soon exactly when the class is not Ready. */
  lemma SoonUnlessReady(o: NodeClass, a: Answers, now: int)
    requires forall t: ConditionType :: !OutcomeOf(o.spec, a, t).Transient?
    ensures var p := Pass(o, a, now); Ready(p) <==> forall t: ConditionType :: !AsksSoon(p, a, t)
  {
    var p := Pass(o, a, now);
    PassVerdict(o, a, now);
    ReadyAfterIff(o, a, now);
    if Ready(p) {
      forall t: ConditionType ensures !AsksSoon(p, a, t) {
        assert HoldsNow(p, t);
        if t != ValidationSucceeded {
          assert KeepsHolding(o, a, t);
        }
      }
    } else {
      assert !p.conditions[ValidationSucceeded].status.IsTrue?;
      assert AsksSoon(p, a, ValidationSucceeded);
    }
  }

  lemma EveryReconcilerListed(t: ConditionType)
    ensures t in RECONCILERS
  {
    RequiredIsEveryDependency(t);
  }

  lemma ReconcilersDistinct(k: nat)
    requires k < |RECONCILERS|
    ensures RECONCILERS[k] !in RECONCILERS[..k] && ValidationSucceeded !in RECONCILERS[..k]
  {
    RequiredDistinct();
    assert RECONCILERS[..k] == REQUIRED[..k];
    if k < |REQUIRED| {
      assert RECONCILERS[k] == REQUIRED[k];
    }
  }

  /** What the controller's loop carries besides the object. */
  datatype Progress = Progress(errored: bool, least: int, published: set<ConditionType>)

  function Noted(pr: Progress, t: ConditionType, requeue: Option<int>, published: bool): Progress
  {
    Progress(
      pr.errored || requeue.None?,
      if requeue.Some? && requeue.value < pr.least then requeue.value else pr.least,
      if published then pr.published + {t} else pr.published)
  }

  /** `pr` sums up the delays the sub-reconcilers of `ts` asked for. */
  ghost predicate SumsDelays(a: Answers, o: NodeClass, ts: seq<ConditionType>, pr: Progress)
    requires HasAll(o)
  {
    && (pr.errored <==> exists t :: t in ts && OutcomeOf(o.spec, a, t).Transient?)
    && pr.least in {MISCONFIGURED_REQUEUE, RESOLVED_REQUEUE}
    && (!pr.errored ==> (pr.least == MISCONFIGURED_REQUEUE <==> exists t :: t in ts && AsksSoon(o, a, t)))
  }

  /** `pr` holds the narrowings the sub-reconcilers of `ts` announced, and no other condition has moved. */
  ghost predicate SumsEvents(start: NodeClass, o: NodeClass, ts: seq<ConditionType>, pr: Progress)
    requires HasAll(start) && HasAll(o)
  {
    && (forall t: ConditionType | t !in ts :: o.conditions[t] == start.conditions[t] && t !in pr.published)
    && (forall t: ConditionType | t in ts :: t in pr.published <==> Published(t, start.conditions[t], o.conditions[t]))
  }

  /** `pr` sums up the sub-reconcilers of `ts`, which took the object from `start` to `o`. */
  ghost predicate SumsUp(a: Answers, start: NodeClass, o: NodeClass, ts: seq<ConditionType>, pr: Progress)
  {
    && HasAll(start) && HasAll(o) && o.spec == start.spec
    && SumsDelays(a, o, ts, pr) && SumsEvents(start, o, ts, pr)
  }

  lemma StepTouchesOne(at: Stamp, a: Answers, o: NodeClass, t: ConditionType)
    requires HasAll(o)
    ensures forall u: ConditionType | u != t :: Step(at, a, o, t).conditions[u] == o.conditions[u]
  {
  }

  lemma OneMoreDelay(a: Answers, o: NodeClass, o': NodeClass, ts: seq<ConditionType>, t: ConditionType, pr: Progress,
                     requeue: Option<int>, published: bool)
    requires HasAll(o) && SumsDelays(a, o, ts, pr) && t !in ts && ValidationSucceeded !in ts
    requires HasAll(o') && o'.spec == o.spec && requeue == RequeueAfter(o', a, t)
    ensures SumsDelays(a, o', ts + [t], Noted(pr, t, requeue, published))
  {
    assert forall u | u in ts :: AsksSoon(o', a, u) <==> AsksSoon(o, a, u);
    assert t in ts + [t] && forall u | u in ts :: u in ts + [t];
  }

  lemma OneMoreEvent(start: NodeClass, o: NodeClass, o': NodeClass, ts: seq<ConditionType>, t: ConditionType, pr: Progress,
                     requeue: Option<int>, published: bool)
    requires HasAll(start) && HasAll(o) && HasAll(o') && SumsEvents(start, o, ts, pr) && t !in ts
    requires forall u: ConditionType | u != t :: o'.conditions[u] == o.conditions[u]
    requires published <==> Published(t, o.conditions[t], o'.conditions[t])
    ensures SumsEvents(start, o', ts + [t], Noted(pr, t, requeue, published))
  {
  }

  lemma SumsUpOneMore(a: Answers, start: NodeClass, o: NodeClass, o': NodeClass, ts: seq<ConditionType>, t: ConditionType,
                      pr: Progress, requeue: Option<int>, published: bool)
    requires SumsUp(a, start, o, ts, pr) && t !in ts && ValidationSucceeded !in ts
    requires HasAll(o') && o'.spec == o.spec && forall u: ConditionType | u != t :: o'.conditions[u] == o.conditions[u]
    requires requeue == RequeueAfter(o', a, t) && (published <==> Published(t, o.conditions[t], o'.conditions[t]))
    ensures SumsUp(a, start, o', ts + [t], Noted(pr, t, requeue, published))
  {
    OneMoreDelay(a, o, o', ts, t, pr, requeue, published);
    OneMoreEvent(start, o, o', ts, t, pr, requeue, published);
  }

  lemma PassSummary(o: NodeClass, a: Answers, now: int, pr: Progress)
    requires SumsUp(a, Initialised(Stamp(o.generation, now), o), Pass(o, a, now), RECONCILERS, pr)
    ensures pr.errored <==> exists t: ConditionType :: OutcomeOf(o.spec, a, t).Transient?
    ensures !pr.errored ==> pr.least == if Ready(Pass(o, a, now)) then RESOLVED_REQUEUE else MISCONFIGURED_REQUEUE
    ensures forall t: ConditionType :: t in pr.published <==>
      Published(t, ConditionOf(Stamp(o.generation, now), o, t), Pass(o, a, now).conditions[t])
  {
    forall t: ConditionType ensures t in RECONCILERS {
      EveryReconcilerListed(t);
    }
    if !pr.errored {
      SoonUnlessReady(o, a, now);
    }
  }

  class Object {
    const generation: nat
    const spec: Spec
    var status: Status
    var conditions: map<ConditionType, Condition>

    constructor (o: NodeClass)
      ensures Value() == o
    {
      generation, spec, status, conditions := o.generation, o.spec, o.status, o.conditions;
    }

    function Value(): NodeClass
      reads this
    {
      NodeClass(generation, spec, status, conditions)
    }

    /** Image.Reconcile; the result is the requeue delay, or None for a returned error. */
    method ReconcileImage(at: Stamp, a: Answers) returns (requeue: Option<int>)
      requires HasAll(Value())
      modifies this
      ensures Value() == Step(at, a, old(Value()), ImageReady)
      ensures requeue == RequeueFor(OutcomeOf(spec, a, ImageReady))
    {
      var c := conditions[ImageReady];
      if a.image.Err? {
        var e := a.image.error;
        var why := ConfigFailure(e);
        if why.Some? {
          status := status.(image := None);
          conditions := conditions[ImageReady := Set(at, c, IsFalse, ResolveFailed(why.value), FailureText([spec.image], e))];
          return Some(MISCONFIGURED_REQUEUE);
        }
        conditions := conditions[ImageReady := NoteUnreachable(at, c, e)];
        return None;
      }
      status := status.(image := Some(a.image.value));
      conditions := conditions[ImageReady := SetTrue(at, c)];
      return Some(RESOLVED_REQUEUE);
    }

    method ReconcileNetwork(at: Stamp, a: Answers) returns (requeue: Option<int>)
      requires HasAll(Value())
      modifies this
      ensures Value() == Step(at, a, old(Value()), NetworkReady)
      ensures requeue == RequeueFor(OutcomeOf(spec, a, NetworkReady))
    {
      var c := conditions[NetworkReady];
      if spec.network.None? {
        status := status.(network := None);
        conditions := conditions[NetworkReady := SetTrue(at, c)];
        return Some(RESOLVED_REQUEUE);
      }
      if a.network.Err? {
        var e := a.network.error;
        var why := ConfigFailure(e);
        if why.Some? {
          status := status.(network := None);
          conditions := conditions[NetworkReady := Set(at, c, IsFalse, ResolveFailed(why.value), FailureText([spec.network.value], e))];
          return Some(MISCONFIGURED_REQUEUE);
        }
        conditions := conditions[NetworkReady := NoteUnreachable(at, c, e)];
        return None;
      }
      if a.network.value.zone == "" {
        status := status.(network := None);
        conditions := conditions[NetworkReady := Set(at, c, IsFalse, NetworkHasNoSubnet, NoMessage)];
        return Some(MISCONFIGURED_REQUEUE);
      }
      status := status.(network := Some(a.network.value));
      conditions := conditions[NetworkReady := SetTrue(at, c)];
      return Some(RESOLVED_REQUEUE);
    }

    method ReconcileFirewalls(at: Stamp, a: Answers) returns (requeue: Option<int>)
      requires HasAll(Value())
      modifies this
      ensures Value() == Step(at, a, old(Value()), FirewallsReady)
      ensures requeue == RequeueFor(OutcomeOf(spec, a, FirewallsReady))
    {
      var r, outcome := Resolvers.ReconcileFirewalls(at, spec.firewalls, a.firewall, Cell(conditions[FirewallsReady], status.firewalls));
      status := status.(firewalls := r.field);
      conditions := conditions[FirewallsReady := r.condition];
      return RequeueFor(outcome);
    }

    method ReconcileSSHKeys(at: Stamp, a: Answers) returns (requeue: Option<int>, published: bool)
      requires HasAll(Value())
      modifies this
      ensures Value() == Step(at, a, old(Value()), SSHKeysReady)
      ensures requeue == RequeueFor(OutcomeOf(spec, a, SSHKeysReady))
      ensures published <==> Announces(old(conditions)[SSHKeysReady], conditions[SSHKeysReady], SSHKeysNarrowed)
    {
      var r, outcome, p := Resolvers.ReconcileSSHKeys(at, spec.sshKeys, a.sshKey, Cell(conditions[SSHKeysReady], status.sshKeys));
      status := status.(sshKeys := r.field);
      conditions := conditions[SSHKeysReady := r.condition];
      return RequeueFor(outcome), p;
    }

    method ReconcilePlacementGroup(at: Stamp, a: Answers) returns (requeue: Option<int>)
      requires HasAll(Value())
      modifies this
      ensures Value() == Step(at, a, old(Value()), PlacementGroupReady)
      ensures requeue == RequeueFor(OutcomeOf(spec, a, PlacementGroupReady))
    {
      var c := conditions[PlacementGroupReady];
      if spec.placementGroup.None? {
        status := status.(placementGroup := None);
        conditions := conditions[PlacementGroupReady := SetTrue(at, c)];
        return Some(RESOLVED_REQUEUE);
      }
      if a.placementGroup.Err? {
        var e := a.placementGroup.error;
        var why := ConfigFailure(e);
        if why.Some? {
          status := status.(placementGroup := None);
          conditions := conditions[PlacementGroupReady :=
            Set(at, c, IsFalse, ResolveFailed(why.value), FailureText([spec.placementGroup.value], e))];
          return Some(MISCONFIGURED_REQUEUE);
        }
        conditions := conditions[PlacementGroupReady := NoteUnreachable(at, c, e)];
        return None;
      }
      var pg := a.placementGroup.value;
      status := status.(placementGroup := Some(pg));
      if pg.serverCount >= PLACEMENT_GROUP_MAX_SERVERS {
        conditions := conditions[PlacementGroupReady := Set(at, c, IsTrue, PlacementGroupAtCapacity, NoMessage)];
      } else if pg.serverCount >= PLACEMENT_GROUP_WARN_SERVERS {
        conditions := conditions[PlacementGroupReady := Set(at, c, IsTrue, PlacementGroupNearCapacity, NoMessage)];
      } else {
        conditions := conditions[PlacementGroupReady := SetTrue(at, c)];
      }
      return Some(RESOLVED_REQUEUE);
    }

    /** The shared failure exit of BootstrapDiscovery.Reconcile: both join parameters go together. */
    method ClearJoin(at: Stamp, reason: Reason, message: Message)
      requires HasAll(Value())
      modifies this
      ensures status == old(status).(apiServerEndpoint := "", caCertHashes := [])
      ensures conditions == old(conditions)[BootstrapDiscoveryReady :=
        Set(at, old(conditions)[BootstrapDiscoveryReady], IsFalse, reason, message)]
    {
      status := status.(apiServerEndpoint := "", caCertHashes := []);
      conditions := conditions[BootstrapDiscoveryReady := Set(at, conditions[BootstrapDiscoveryReady], IsFalse, reason, message)];
    }

    method ReconcileBootstrap(at: Stamp, a: Answers) returns (requeue: Option<int>)
      requires HasAll(Value())
      modifies this
      ensures Value() == Step(at, a, old(Value()), BootstrapDiscoveryReady)
      ensures requeue == RequeueFor(OutcomeOf(spec, a, BootstrapDiscoveryReady))
    {
      if spec.apiServerEndpoint == "" || |spec.caCertHashes| == 0 {
        match a.refresh {
          case RefreshTransient(e) =>
            conditions := conditions[BootstrapDiscoveryReady := NoteUnreachable(at, conditions[BootstrapDiscoveryReady], e)];
            return None;
          case RefreshConfigError(e) =>
            ClearJoin(at, ClusterInfoUnavailable, ErrorText(e));
            return Some(MISCONFIGURED_REQUEUE);
          case RefreshOk =>
        }
      }
      var resolved := ResolveJoin(a.discovered, Override(spec));
      if resolved.None? {
        ClearJoin(at, JoinParametersIncomplete, NoMessage);
        return Some(MISCONFIGURED_REQUEUE);
      }
      var bad := InvalidHashes(resolved.value.hashes);
      if |bad| > 0 {
        ClearJoin(at, InvalidCACertHash, Pins(bad));
        return Some(MISCONFIGURED_REQUEUE);
      }
      status := status.(apiServerEndpoint := resolved.value.endpoint, caCertHashes := resolved.value.hashes);
      conditions := conditions[BootstrapDiscoveryReady := SetTrue(at, conditions[BootstrapDiscoveryReady])];
      return Some(RESOLVED_REQUEUE);
    }

    method ReconcileValidation(at: Stamp, a: Answers) returns (requeue: Option<int>, published: bool)
      requires HasAll(Value())
      modifies this
      ensures Value() == Step(at, a, old(Value()), ValidationSucceeded)
      ensures requeue == Some(if conditions[ValidationSucceeded].status.IsTrue? then RESOLVED_REQUEUE else MISCONFIGURED_REQUEUE)
      ensures published <==> Announces(old(conditions)[ValidationSucceeded], conditions[ValidationSucceeded], LocationsNarrowed)
      ensures var before, after := old(conditions)[ValidationSucceeded], conditions[ValidationSucceeded];
        published <==> after.reason == LocationsNarrowed && (before.reason != LocationsNarrowed || before.message != after.message)
    {
      var v := Check(Value(), a.catalog);
      var prev := conditions[ValidationSucceeded];
      status := status.(locations := v.locations);
      conditions := conditions[ValidationSucceeded := Set(at, prev, v.status, v.reason, v.message)];
      if !v.status.IsTrue? {
        return Some(MISCONFIGURED_REQUEUE), false;
      }
      published := v.reason == LocationsNarrowed && (prev.reason != LocationsNarrowed || prev.message != v.message);
      return Some(RESOLVED_REQUEUE), published;
    }

    /** One entry of the sub-reconciler list. */
    method RunOne(at: Stamp, a: Answers, t: ConditionType) returns (requeue: Option<int>, published: bool)
      requires HasAll(Value())
      modifies this
      ensures Value() == Step(at, a, old(Value()), t)
      ensures requeue == RequeueAfter(Value(), a, t)
      ensures published <==> Published(t, old(conditions)[t], conditions[t])
    {
      published := false;
      match t {
        case ImageReady => requeue := ReconcileImage(at, a);
        case NetworkReady => requeue := ReconcileNetwork(at, a);
        case FirewallsReady => requeue := ReconcileFirewalls(at, a);
        case SSHKeysReady => requeue, published := ReconcileSSHKeys(at, a);
        case PlacementGroupReady => requeue := ReconcilePlacementGroup(at, a);
        case BootstrapDiscoveryReady => requeue := ReconcileBootstrap(at, a);
        case ValidationSucceeded => requeue, published := ReconcileValidation(at, a);
      }
    }

    /** The loop over the sub-reconcilers: every one runs, whatever the earlier ones returned. */
    method RunAll(at: Stamp, a: Answers) returns (pr: Progress)
      requires HasAll(Value())
      modifies this
      ensures Value() == Steps(at, a, old(Value()), RECONCILERS)
      ensures SumsUp(a, old(Value()), Value(), RECONCILERS, pr)
    {
      ghost var start := Value();
      pr := Progress(false, RESOLVED_REQUEUE, {});
      for k := 0 to |RECONCILERS|
        invariant Value() == Steps(at, a, start, RECONCILERS[..k])
        invariant SumsUp(a, start, Value(), RECONCILERS[..k], pr)
      {
        var t := RECONCILERS[k];
        assert RECONCILERS[..k + 1] == RECONCILERS[..k] + [t];
        StepsSnoc(at, a, start, RECONCILERS[..k], t);
        ReconcilersDistinct(k);
        ghost var before := Value();
        var r, p := RunOne(at, a, t);
        StepTouchesOne(at, a, before, t);
        SumsUpOneMore(a, start, before, Value(), RECONCILERS[..k], t, pr, r, p);
        pr := Noted(pr, t, r, p);
      }
      assert RECONCILERS[..|RECONCILERS|] == RECONCILERS;
    }

    /**
     * Controller.Reconcile up to the status patch. Reports the delay before the
     * next pass (None when an error is returned), whether there is anything to
     * patch, and which narrowings were announced.
     */
    method Reconcile(a: Answers, now: int) returns (requeue: Option<int>, patch: bool, published: set<ConditionType>)
      modifies this
      ensures Value() == Pass(old(Value()), a, now)
      ensures patch <==> Value() != old(Value())
      ensures requeue.None? <==> exists t: ConditionType :: OutcomeOf(spec, a, t).Transient?
      ensures requeue.Some? ==> requeue.value == if Ready(Value()) then 300 else 60
      ensures forall t: ConditionType :: t in published <==>
        Published(t, ConditionOf(Stamp(generation, now), old(Value()), t), conditions[t])
    {
      var stored := Value();
      var at := Stamp(generation, now);
      conditions := Initialised(at, stored).conditions;
      var pr := RunAll(at, a);
      PassSummary(stored, a, now, pr);
      return if pr.errored then None else Some(pr.least), Value() != stored, pr.published;
    }
  }
}
