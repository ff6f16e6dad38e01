/**
 * One reconcile pass over a NodeClass as a function of the stored object, and
 * what such passes keep (internal/controllers/nodeclass/controller.go).
 */
module NodeClassPass {
  import opened Common
  import opened Errors
  import opened NodeClassTypes
  import opened InstanceTypes
  import opened Conditions
  import opened Resolvers
  import opened Validation

  /** What the outside world answers during one pass. List resolvers are answered by selector position. */
  datatype Answers = Answers(
    image: Result<ImageStatus, Err>,
    network: Result<NetworkStatus, Err>,
    firewall: nat -> Result<FirewallStatus, Err>,
    sshKey: nat -> Result<SSHKeyStatus, Err>,
    placementGroup: Result<PlacementGroupStatus, Err>,
    refresh: RefreshOutcome,
    discovered: JoinParams,
    catalog: Option<seq<ServerType>>)

  // ---------------------------------------------------------------- one sub-reconciler

  function Override(spec: Spec): JoinParams
  {
    JoinParams(spec.apiServerEndpoint, spec.caCertHashes)
  }

  function Join(status: Status): JoinParams
  {
    JoinParams(status.apiServerEndpoint, status.caCertHashes)
  }

  /** How the sub-reconciler owning `t` comes out; validation never fails transiently. */
  ghost function OutcomeOf(spec: Spec, a: Answers, t: ConditionType): Outcome
  {
    match t
    case ImageReady => ImageOutcome(a.image)
    case NetworkReady => NetworkOutcome(spec.network, a.network)
    case FirewallsReady => ListOutcome(FirewallFailures(a.firewall), |spec.firewalls|, false)
    case SSHKeysReady => ListOutcome(SSHKeyFailures(a.sshKey), |spec.sshKeys|, true)
    case PlacementGroupReady => PlacementGroupOutcome(spec.placementGroup, a.placementGroup)
    case BootstrapDiscoveryReady => BootstrapOutcome(Override(spec), a.refresh, a.discovered)
    case ValidationSucceeded => Success
  }

  /** StatusConditions(): every absent condition comes into being as Unknown. */
  function Initialised(at: Stamp, o: NodeClass): (r: NodeClass)
    ensures HasAll(r)
  {
    o.(conditions := map t: ConditionType :: ConditionOf(at, o, t))
  }

  function Put(o: NodeClass, t: ConditionType, c: Condition, status: Status): NodeClass
  {
    o.(conditions := o.conditions[t := c], status := status)
  }

  /** What the resolver owning `t` makes of its condition. */
  ghost function NextCondition(at: Stamp, a: Answers, o: NodeClass, t: ConditionType): Condition
    requires HasAll(o) && t != ValidationSucceeded
  {
    var c := o.conditions[t];
    match t
    case ImageReady => ImageCell(at, o.spec.image, a.image, Cell(c, o.status.image)).condition
    case NetworkReady => NetworkCell(at, o.spec.network, a.network, Cell(c, o.status.network)).condition
    case FirewallsReady => FirewallsCell(at, o.spec.firewalls, a.firewall, Cell(c, o.status.firewalls)).condition
    case SSHKeysReady => SSHKeysCell(at, o.spec.sshKeys, a.sshKey, Cell(c, o.status.sshKeys)).condition
    case PlacementGroupReady =>
      PlacementGroupCell(at, o.spec.placementGroup, a.placementGroup, Cell(c, o.status.placementGroup)).condition
    case BootstrapDiscoveryReady => BootstrapCell(at, Override(o.spec), a.refresh, a.discovered, Cell(c, Join(o.status))).condition
  }

  /** The status once the resolver owning `t` has written its field of `from`. */
  ghost function NextStatus(at: Stamp, a: Answers, o: NodeClass, from: Status, t: ConditionType): Status
    requires HasAll(o) && t != ValidationSucceeded
  {
    var c := o.conditions[t];
    match t
    case ImageReady => from.(image := ImageCell(at, o.spec.image, a.image, Cell(c, o.status.image)).field)
    case NetworkReady => from.(network := NetworkCell(at, o.spec.network, a.network, Cell(c, o.status.network)).field)
    case FirewallsReady => from.(firewalls := FirewallsCell(at, o.spec.firewalls, a.firewall, Cell(c, o.status.firewalls)).field)
    case SSHKeysReady => from.(sshKeys := SSHKeysCell(at, o.spec.sshKeys, a.sshKey, Cell(c, o.status.sshKeys)).field)
    case PlacementGroupReady =>
      from.(placementGroup :=
        PlacementGroupCell(at, o.spec.placementGroup, a.placementGroup, Cell(c, o.status.placementGroup)).field)
    case BootstrapDiscoveryReady =>
      var join := BootstrapCell(at, Override(o.spec), a.refresh, a.discovered, Cell(c, Join(o.status))).field;
      from.(apiServerEndpoint := join.endpoint, caCertHashes := join.hashes)
  }

  /** The object after the sub-reconciler owning `t` ran on it. */
  ghost function Step(at: Stamp, a: Answers, o: NodeClass, t: ConditionType): (r: NodeClass)
    requires HasAll(o)
    ensures HasAll(r) && r.generation == o.generation && r.spec == o.spec
  {
    if t == ValidationSucceeded then
      var v := Judge(o, a.catalog);
      Put(o, t, Set(at, o.conditions[t], v.status, v.reason, v.message), o.status.(locations := v.locations))
    else Put(o, t, NextCondition(at, a, o, t), NextStatus(at, a, o, o.status, t))
  }

  /** The registered order; validation last, because it reads what the others wrote. */
  const RECONCILERS := REQUIRED + [ValidationSucceeded]

  ghost function Steps(at: Stamp, a: Answers, o: NodeClass, ts: seq<ConditionType>): (r: NodeClass)
    requires HasAll(o)
    ensures HasAll(r) && r.generation == o.generation && r.spec == o.spec
  {
    if ts == [] then o
    else Step(at, a, Steps(at, a, o, ts[..|ts| - 1]), ts[|ts| - 1])
  }

  /** One full pass, as a function of the stored object. */
  ghost function Pass(o: NodeClass, a: Answers, now: int): (r: NodeClass)
    ensures HasAll(r) && r.generation == o.generation && r.spec == o.spec
  {
    var at := Stamp(o.generation, now);
    Steps(at, a, Initialised(at, o), RECONCILERS)
  }

  /** operatorpkg's roll-up, as an assumption: every condition True at the current generation. */
  predicate Ready(o: NodeClass)
  {
    forall t: ConditionType :: HoldsNow(o, t)
  }

  // ---------------------------------------------------------------- a pass, condition by condition

  ghost function ResolvedConditions(at: Stamp, a: Answers, o: NodeClass): map<ConditionType, Condition>
    requires HasAll(o)
  {
    map t: ConditionType :: if t == ValidationSucceeded then o.conditions[t] else NextCondition(at, a, o, t)
  }

  ghost function ResolvedStatus(at: Stamp, a: Answers, o: NodeClass): Status
    requires HasAll(o)
  {
    Status(
      image := NextStatus(at, a, o, o.status, ImageReady).image,
      network := NextStatus(at, a, o, o.status, NetworkReady).network,
      firewalls := NextStatus(at, a, o, o.status, FirewallsReady).firewalls,
      sshKeys := NextStatus(at, a, o, o.status, SSHKeysReady).sshKeys,
      placementGroup := NextStatus(at, a, o, o.status, PlacementGroupReady).placementGroup,
      locations := o.status.locations,
      apiServerEndpoint := NextStatus(at, a, o, o.status, BootstrapDiscoveryReady).apiServerEndpoint,
      caCertHashes := NextStatus(at, a, o, o.status, BootstrapDiscoveryReady).caCertHashes)
  }

  /** The object after the six resolvers, each shown acting on what the pass started from. */
  ghost function Resolved(at: Stamp, a: Answers, o: NodeClass): (r: NodeClass)
    requires HasAll(o)
    ensures HasAll(r) && r.generation == o.generation && r.spec == o.spec
  {
    o.(conditions := ResolvedConditions(at, a, o), status := ResolvedStatus(at, a, o))
  }

  lemma StepsSnoc(at: Stamp, a: Answers, o: NodeClass, ts: seq<ConditionType>, t: ConditionType)
    requires HasAll(o)
    ensures Steps(at, a, o, ts + [t]) == Step(at, a, Steps(at, a, o, ts), t)
  {
    assert (ts + [t])[..|ts|] == ts;
  }

  /** The status field the sub-reconciler owning `t` publishes is the same in both. */
  predicate SameField(s: Status, s': Status, t: ConditionType)
  {
    match t
    case ImageReady => s.image == s'.image
    case NetworkReady => s.network == s'.network
    case FirewallsReady => s.firewalls == s'.firewalls
    case SSHKeysReady => s.sshKeys == s'.sshKeys
    case PlacementGroupReady => s.placementGroup == s'.placementGroup
    case BootstrapDiscoveryReady => Join(s) == Join(s')
    case ValidationSucceeded => s.locations == s'.locations
  }

  lemma SameFieldsSameStatus(s: Status, s': Status)
    requires forall t: ConditionType :: SameField(s, s', t)
    ensures s == s'
  {
    assert SameField(s, s', ImageReady) && SameField(s, s', NetworkReady) && SameField(s, s', FirewallsReady);
    assert SameField(s, s', SSHKeysReady) && SameField(s, s', PlacementGroupReady);
    assert SameField(s, s', BootstrapDiscoveryReady) && SameField(s, s', ValidationSucceeded);
  }

  /** A resolver reads and writes its own condition and field only. */
  lemma StepLocal(at: Stamp, a: Answers, o: NodeClass, p: NodeClass, t: ConditionType)
    requires HasAll(o) && HasAll(p) && t != ValidationSucceeded
    requires p.spec == o.spec && p.conditions[t] == o.conditions[t] && SameField(p.status, o.status, t)
    ensures NextCondition(at, a, p, t) == NextCondition(at, a, o, t)
    ensures SameField(NextStatus(at, a, p, p.status, t), ResolvedStatus(at, a, o), t)
    ensures forall u: ConditionType | u != t :: SameField(NextStatus(at, a, p, p.status, t), p.status, u)
  {
  }

  /** In `p` the resolvers of `ts` have run on `o` and no other has. */
  ghost predicate HaveRun(at: Stamp, a: Answers, o: NodeClass, p: NodeClass, ts: seq<ConditionType>)
    requires HasAll(o)
  {
    && HasAll(p) && p.spec == o.spec && ValidationSucceeded !in ts
    && (forall t: ConditionType | t in ts ::
          p.conditions[t] == NextCondition(at, a, o, t) && SameField(p.status, ResolvedStatus(at, a, o), t))
    && forall t: ConditionType | t !in ts :: p.conditions[t] == o.conditions[t] && SameField(p.status, o.status, t)
  }

  lemma OneMoreRuns(at: Stamp, a: Answers, o: NodeClass, p: NodeClass, ts: seq<ConditionType>, t: ConditionType)
    requires HasAll(o) && HaveRun(at, a, o, p, ts) && t !in ts && t != ValidationSucceeded
    ensures HaveRun(at, a, o, Step(at, a, p, t), ts + [t])
  {
    StepLocal(at, a, o, p, t);
    var q := Step(at, a, p, t);
    forall u: ConditionType
      ensures u in ts + [t] ==> q.conditions[u] == NextCondition(at, a, o, u) && SameField(q.status, ResolvedStatus(at, a, o), u)
      ensures u !in ts + [t] ==> q.conditions[u] == o.conditions[u] && SameField(q.status, o.status, u)
    {
      if u != t {
        assert SameField(q.status, p.status, u);
        FieldTransitive(q.status, p.status, if u in ts then ResolvedStatus(at, a, o) else o.status, u);
      }
    }
  }

  lemma FieldTransitive(s: Status, s': Status, s'': Status, t: ConditionType)
    requires SameField(s, s', t) && SameField(s', s'', t)
    ensures SameField(s, s'', t)
  {
  }

  lemma RequiredDistinct()
    ensures Distinct(REQUIRED) && ValidationSucceeded !in REQUIRED
  {
  }

  lemma {:induction false} AllRun(at: Stamp, a: Answers, o: NodeClass, ts: seq<ConditionType>)
    requires HasAll(o) && Distinct(ts) && ValidationSucceeded !in ts
    ensures HaveRun(at, a, o, Steps(at, a, o, ts), ts)
  {
    if ts != [] {
      var n := |ts| - 1;
      var init, t := ts[..n], ts[n];
      assert ts == init + [t];
      AllRun(at, a, o, init);
      OneMoreRuns(at, a, o, Steps(at, a, o, init), init, t);
    }
  }

  /** No resolver sees another's writes: six in a row are six side by side. */
  lemma ResolversIndependent(at: Stamp, a: Answers, o: NodeClass)
    requires HasAll(o)
    ensures Steps(at, a, o, REQUIRED) == Resolved(at, a, o)
  {
    RequiredDistinct();
    AllRun(at, a, o, REQUIRED);
    var p := Steps(at, a, o, REQUIRED);
    forall t: ConditionType
      ensures SameField(p.status, Resolved(at, a, o).status, t) && p.conditions[t] == Resolved(at, a, o).conditions[t]
    {
      RequiredIsEveryDependency(t);
    }
    SameFieldsSameStatus(p.status, Resolved(at, a, o).status);
    assert p.conditions == Resolved(at, a, o).conditions;
  }

  lemma PassIsResolveThenJudge(o: NodeClass, a: Answers, now: int)
    ensures var at := Stamp(o.generation, now);
      Pass(o, a, now) == Step(at, a, Resolved(at, a, Initialised(at, o)), ValidationSucceeded)
  {
    var at := Stamp(o.generation, now);
    ResolversIndependent(at, a, Initialised(at, o));
    StepsSnoc(at, a, Initialised(at, o), REQUIRED, ValidationSucceeded);
  }

  // ---------------------------------------------------------------- readiness

  /** A resolver leaves its condition holding: it resolved, or it blipped over a resolution that stands. */
  ghost predicate KeepsHolding(o: NodeClass, a: Answers, t: ConditionType)
  {
    OutcomeOf(o.spec, a, t).Success? || (OutcomeOf(o.spec, a, t).Transient? && HoldsNow(o, t))
  }

  ghost predicate LeavesFalse(o: NodeClass, a: Answers, t: ConditionType)
  {
    || OutcomeOf(o.spec, a, t).Misconfigured?
    || (OutcomeOf(o.spec, a, t).Transient? && t in o.conditions && o.conditions[t].status.IsFalse?)
  }

  lemma CauseSome(f: Failures, n: nat)
    ensures Cause(f, n).Some? <==> First(f, AnyFailure, n).Some?
  {
    var severe := First(f, SevereFailure, n);
    if severe.Some? {
      assert FailsAs(f, severe.value, AnyFailure);
    }
  }

  /** What an outcome does to the condition it is recorded on. */
  predicate Records(outcome: Outcome, before: Condition, after: Condition, generation: nat)
  {
    && (Holds(after, generation) <==> outcome.Success? || (outcome.Transient? && Holds(before, generation)))
    && (after.status.IsFalse? <==> outcome.Misconfigured? || (outcome.Transient? && before.status.IsFalse?))
  }

  lemma ImageRecords(at: Stamp, sel: Selector, answer: Result<ImageStatus, Err>, c: Cell<Option<ImageStatus>>)
    ensures Records(ImageOutcome(answer), c.condition, ImageCell(at, sel, answer, c).condition, at.generation)
  {
  }

  lemma NetworkRecords(at: Stamp, sel: Option<Selector>, answer: Result<NetworkStatus, Err>, c: Cell<Option<NetworkStatus>>)
    ensures Records(NetworkOutcome(sel, answer), c.condition, NetworkCell(at, sel, answer, c).condition, at.generation)
  {
  }

  lemma FirewallsRecord(at: Stamp, sels: seq<Selector>, answer: nat -> Result<FirewallStatus, Err>, c: Cell<seq<FirewallStatus>>)
    ensures Records(ListOutcome(FirewallFailures(answer), |sels|, false), c.condition,
                    FirewallsCell(at, sels, answer, c).condition, at.generation)
  {
    CauseSome(FirewallFailures(answer), |sels|);
  }

  lemma SSHKeysRecord(at: Stamp, sels: seq<Selector>, answer: nat -> Result<SSHKeyStatus, Err>, c: Cell<seq<SSHKeyStatus>>)
    ensures Records(ListOutcome(SSHKeyFailures(answer), |sels|, true), c.condition,
                    SSHKeysCell(at, sels, answer, c).condition, at.generation)
  {
  }

  lemma PlacementGroupRecords(at: Stamp, sel: Option<Selector>, answer: Result<PlacementGroupStatus, Err>,
                              c: Cell<Option<PlacementGroupStatus>>)
    ensures Records(PlacementGroupOutcome(sel, answer), c.condition, PlacementGroupCell(at, sel, answer, c).condition, at.generation)
  {
  }

  lemma BootstrapRecords(at: Stamp, override: JoinParams, refresh: RefreshOutcome, discovered: JoinParams, c: Cell<JoinParams>)
    ensures Records(BootstrapOutcome(override, refresh, discovered), c.condition,
                    BootstrapCell(at, override, refresh, discovered, c).condition, at.generation)
  {
  }

  lemma ResolverRecords(at: Stamp, a: Answers, o: NodeClass, t: ConditionType)
    requires HasAll(o) && t != ValidationSucceeded
    ensures Records(OutcomeOf(o.spec, a, t), o.conditions[t], NextCondition(at, a, o, t), at.generation)
  {
    var c := o.conditions[t];
    match t
    case ImageReady => ImageRecords(at, o.spec.image, a.image, Cell(c, o.status.image));
    case NetworkReady => NetworkRecords(at, o.spec.network, a.network, Cell(c, o.status.network));
    case FirewallsReady => FirewallsRecord(at, o.spec.firewalls, a.firewall, Cell(c, o.status.firewalls));
    case SSHKeysReady => SSHKeysRecord(at, o.spec.sshKeys, a.sshKey, Cell(c, o.status.sshKeys));
    case PlacementGroupReady =>
      PlacementGroupRecords(at, o.spec.placementGroup, a.placementGroup, Cell(c, o.status.placementGroup));
    case BootstrapDiscoveryReady => BootstrapRecords(at, Override(o.spec), a.refresh, a.discovered, Cell(c, Join(o.status)));
  }

  lemma ResolverExact(at: Stamp, a: Answers, o: NodeClass, t: ConditionType)
    requires at.generation == o.generation && t != ValidationSucceeded
    ensures var c := NextCondition(at, a, Initialised(at, o), t);
      && (Holds(c, o.generation) <==> KeepsHolding(o, a, t))
      && (c.status.IsFalse? <==> LeavesFalse(o, a, t))
  {
    ResolverRecords(at, a, Initialised(at, o), t);
  }

  /** The image and network status a pass will validate against. */
  function ImageSeen(o: NodeClass, a: Answers): Option<ImageStatus>
  {
    if a.image.Ok? then Some(a.image.value)
    else if ConfigFailure(a.image.error).Some? then None else o.status.image
  }

  function NetworkSeen(o: NodeClass, a: Answers): Option<NetworkStatus>
  {
    if o.spec.network.None? then None
    else if a.network.Ok? then (if a.network.value.zone == "" then None else Some(a.network.value))
    else if ConfigFailure(a.network.error).Some? then None else o.status.network
  }

  ghost predicate Placeable(o: NodeClass, a: Answers)
  {
    a.catalog.Some? && SomeUsable(a.catalog.value, o.spec.locations, NetworkZone(NetworkSeen(o, a)))
  }

  ghost predicate AllKeepHolding(o: NodeClass, a: Answers)
  {
    forall t: ConditionType | t != ValidationSucceeded :: KeepsHolding(o, a, t)
  }

  ghost predicate SomeLeftFalse(o: NodeClass, a: Answers)
  {
    exists t: ConditionType :: t != ValidationSucceeded && LeavesFalse(o, a, t)
  }

  lemma SeenExact(at: Stamp, a: Answers, o: NodeClass)
    ensures var s := ResolvedStatus(at, a, Initialised(at, o)); s.image == ImageSeen(o, a) && s.network == NetworkSeen(o, a)
  {
  }

  lemma ResolversExact(at: Stamp, a: Answers, o: NodeClass)
    requires at.generation == o.generation
    ensures var r := Resolved(at, a, Initialised(at, o));
      && (DependenciesHold(r) <==> AllKeepHolding(o, a))
      && (SomeDependencyFailed(r) <==> SomeLeftFalse(o, a))
      && r.status.image == ImageSeen(o, a) && r.status.network == NetworkSeen(o, a)
  {
    SeenExact(at, a, o);
    var i := Initialised(at, o);
    var r := Resolved(at, a, i);
    forall t: ConditionType | t != ValidationSucceeded
      ensures (HoldsNow(r, t) <==> KeepsHolding(o, a, t)) && (r.conditions[t].status.IsFalse? <==> LeavesFalse(o, a, t))
    {
      ResolvedConditionIs(at, a, i, t);
      ResolverExact(at, a, o, t);
    }
  }

  lemma ResolvedConditionIs(at: Stamp, a: Answers, o: NodeClass, t: ConditionType)
    requires HasAll(o) && t != ValidationSucceeded
    ensures Resolved(at, a, o).conditions[t] == NextCondition(at, a, o, t)
  {
  }

  /** After a pass, ValidationSucceeded always speaks about the current revision. */
  ghost predicate Validated(o: NodeClass, catalog: Option<seq<ServerType>>)
  {
    && ValidationSucceeded in o.conditions
    && o.conditions[ValidationSucceeded].observedGeneration == o.generation
    && (o.conditions[ValidationSucceeded].status.IsTrue? <==> o.status.locations != [])
    && (o.status.locations != [] ==> DependenciesHold(o) && LocationsExact(o, catalog, o.status.locations))
  }

  /**
   * Every pass over every object, whatever it held: validation is True exactly
   * when locations are published, and then everything it rests on holds now.
   */
  lemma PassValidates(o: NodeClass, a: Answers, now: int)
    ensures Validated(Pass(o, a, now), a.catalog)
  {
    PassIsResolveThenJudge(o, a, now);
    var at := Stamp(o.generation, now);
    JudgedIsValidated(at, a, Resolved(at, a, Initialised(at, o)));
  }

  lemma JudgedIsValidated(at: Stamp, a: Answers, r: NodeClass)
    requires HasAll(r) && at.generation == r.generation
    ensures Validated(Step(at, a, r, ValidationSucceeded), a.catalog)
    ensures DependenciesHold(Step(at, a, r, ValidationSucceeded)) <==> DependenciesHold(r)
  {
    var p := Step(at, a, r, ValidationSucceeded);
    JudgeExact(r, a.catalog);
    assert forall t: ConditionType | t != ValidationSucceeded :: HoldsNow(p, t) <==> HoldsNow(r, t);
  }

  /** The three verdicts of a pass, from what it was given. */
  lemma PassVerdict(o: NodeClass, a: Answers, now: int)
    ensures var c := Pass(o, a, now).conditions[ValidationSucceeded];
      var sound := AllKeepHolding(o, a) && ArchitectureSupported(ImageSeen(o, a));
      && (c.status.IsTrue? <==> sound && Placeable(o, a))
      && (c.status.IsFalse? <==>
            SomeLeftFalse(o, a)
            || (AllKeepHolding(o, a) && !ArchitectureSupported(ImageSeen(o, a)))
            || (sound && CatalogKnown(a.catalog) && !Placeable(o, a)))
      && (c.reason in {CatalogNotFetched, CatalogEmpty} <==> sound && !CatalogKnown(a.catalog))
      && (c.reason in {CatalogNotFetched, CatalogEmpty} ==> c.status.IsUnknown?)
  {
    PassIsResolveThenJudge(o, a, now);
    var at := Stamp(o.generation, now);
    JudgeExact(Resolved(at, a, Initialised(at, o)), a.catalog);
    ResolversExact(at, a, o);
  }

  /** Ready after a pass, exactly: from any object, in terms of this pass's answers. */
  lemma ReadyAfterIff(o: NodeClass, a: Answers, now: int)
    ensures Ready(Pass(o, a, now)) <==>
      AllKeepHolding(o, a) && ArchitectureSupported(ImageSeen(o, a)) && Placeable(o, a)
  {
    PassVerdict(o, a, now);
    PassValidates(o, a, now);
    var p := Pass(o, a, now);
    assert Ready(p) <==> DependenciesHold(p) && HoldsNow(p, ValidationSucceeded);
  }

  /** A pass that cannot cost a Ready class its readiness. */
  ghost predicate Harmless(o: NodeClass, a: Answers)
  {
    && (forall t: ConditionType :: !OutcomeOf(o.spec, a, t).Misconfigured?)
    && ArchitectureSupported(ImageSeen(o, a)) && Placeable(o, a)
  }

  lemma ReadyKeepsHoldingIff(o: NodeClass, a: Answers)
    requires Ready(o)
    ensures AllKeepHolding(o, a) <==> forall t: ConditionType :: !OutcomeOf(o.spec, a, t).Misconfigured?
  {
    forall t: ConditionType ensures KeepsHolding(o, a, t) <==> !OutcomeOf(o.spec, a, t).Misconfigured? {
      assert HoldsNow(o, t);
    }
  }

  lemma StaysReadyIff(o: NodeClass, a: Answers, now: int)
    requires Ready(o)
    ensures Ready(Pass(o, a, now)) <==> Harmless(o, a)
  {
    ReadyAfterIff(o, a, now);
    ReadyKeepsHoldingIff(o, a);
  }

  ghost function Passes(o: NodeClass, pass: seq<(Answers, int)>): NodeClass
  {
    if pass == [] then o else Pass(Passes(o, pass[..|pass| - 1]), pass[|pass| - 1].0, pass[|pass| - 1].1)
  }

  /** Ready before the first pass and after every one. */
  ghost predicate ReadyThroughout(o: NodeClass, pass: seq<(Answers, int)>)
  {
    Ready(Passes(o, pass)) && (pass != [] ==> ReadyThroughout(o, pass[..|pass| - 1]))
  }

  ghost predicate HarmlessThroughout(o: NodeClass, pass: seq<(Answers, int)>)
  {
    pass != [] ==>
      Harmless(Passes(o, pass[..|pass| - 1]), pass[|pass| - 1].0) && HarmlessThroughout(o, pass[..|pass| - 1])
  }

  /** A run of passes at one generation keeps a class Ready throughout, exactly when each pass is harmless where it lands. */
  lemma {:induction false} StaysReadyThroughout(o: NodeClass, pass: seq<(Answers, int)>)
    requires Ready(o)
    ensures ReadyThroughout(o, pass) <==> HarmlessThroughout(o, pass)
  {
    if pass != [] {
      var n := |pass| - 1;
      StaysReadyThroughout(o, pass[..n]);
      if ReadyThroughout(o, pass[..n]) {
        StaysReadyIff(Passes(o, pass[..n]), pass[n].0, pass[n].1);
      }
    }
  }

  // ---------------------------------------------------------------- idempotence

  lemma ImageSettles(at: Stamp, later: Stamp, sel: Selector, answer: Result<ImageStatus, Err>, c: Cell<Option<ImageStatus>>)
    requires at.generation == later.generation
    ensures ImageCell(later, sel, answer, ImageCell(at, sel, answer, c)) == ImageCell(at, sel, answer, c)
  {
  }

  lemma NetworkSettles(at: Stamp, later: Stamp, sel: Option<Selector>, answer: Result<NetworkStatus, Err>, c: Cell<Option<NetworkStatus>>)
    requires at.generation == later.generation
    ensures NetworkCell(later, sel, answer, NetworkCell(at, sel, answer, c)) == NetworkCell(at, sel, answer, c)
  {
  }

  lemma FirewallsSettle(at: Stamp, later: Stamp, sels: seq<Selector>, answer: nat -> Result<FirewallStatus, Err>,
                        c: Cell<seq<FirewallStatus>>)
    requires at.generation == later.generation
    ensures FirewallsCell(later, sels, answer, FirewallsCell(at, sels, answer, c)) == FirewallsCell(at, sels, answer, c)
  {
  }

  lemma SSHKeysSettle(at: Stamp, later: Stamp, sels: seq<Selector>, answer: nat -> Result<SSHKeyStatus, Err>,
                      c: Cell<seq<SSHKeyStatus>>)
    requires at.generation == later.generation
    ensures SSHKeysCell(later, sels, answer, SSHKeysCell(at, sels, answer, c)) == SSHKeysCell(at, sels, answer, c)
  {
  }

  lemma PlacementGroupSettles(at: Stamp, later: Stamp, sel: Option<Selector>, answer: Result<PlacementGroupStatus, Err>,
                              c: Cell<Option<PlacementGroupStatus>>)
    requires at.generation == later.generation
    ensures PlacementGroupCell(later, sel, answer, PlacementGroupCell(at, sel, answer, c)) == PlacementGroupCell(at, sel, answer, c)
  {
  }

  lemma BootstrapSettles(at: Stamp, later: Stamp, override: JoinParams, refresh: RefreshOutcome, discovered: JoinParams,
                         c: Cell<JoinParams>)
    requires at.generation == later.generation
    ensures BootstrapCell(later, override, refresh, discovered, BootstrapCell(at, override, refresh, discovered, c))
      == BootstrapCell(at, override, refresh, discovered, c)
  {
  }

  /** A resolver given the same answers again finds nothing to change. */
  lemma ResolverSettles(at: Stamp, later: Stamp, a: Answers, o: NodeClass, p: NodeClass, t: ConditionType)
    requires HasAll(o) && HasAll(p) && at.generation == later.generation && t != ValidationSucceeded
    requires p.spec == o.spec
    requires p.conditions[t] == NextCondition(at, a, o, t) && SameField(p.status, ResolvedStatus(at, a, o), t)
    ensures NextCondition(later, a, p, t) == p.conditions[t]
    ensures SameField(ResolvedStatus(later, a, p), p.status, t)
  {
    var c := o.conditions[t];
    match t
    case ImageReady => ImageSettles(at, later, o.spec.image, a.image, Cell(c, o.status.image));
    case NetworkReady => NetworkSettles(at, later, o.spec.network, a.network, Cell(c, o.status.network));
    case FirewallsReady => FirewallsSettle(at, later, o.spec.firewalls, a.firewall, Cell(c, o.status.firewalls));
    case SSHKeysReady => SSHKeysSettle(at, later, o.spec.sshKeys, a.sshKey, Cell(c, o.status.sshKeys));
    case PlacementGroupReady =>
      PlacementGroupSettles(at, later, o.spec.placementGroup, a.placementGroup, Cell(c, o.status.placementGroup));
    case BootstrapDiscoveryReady =>
      BootstrapSettles(at, later, Override(o.spec), a.refresh, a.discovered, Cell(c, Join(o.status)));
  }

  lemma ResolversSettle(at: Stamp, later: Stamp, a: Answers, o: NodeClass, p: NodeClass)
    requires HasAll(o) && HasAll(p) && at.generation == later.generation && p.spec == o.spec
    requires forall t: ConditionType | t != ValidationSucceeded ::
      p.conditions[t] == NextCondition(at, a, o, t) && SameField(p.status, ResolvedStatus(at, a, o), t)
    ensures Resolved(later, a, p) == p
  {
    forall t: ConditionType
      ensures SameField(Resolved(later, a, p).status, p.status, t) && Resolved(later, a, p).conditions[t] == p.conditions[t]
    {
      if t != ValidationSucceeded {
        ResolverSettles(at, later, a, o, p, t);
      }
    }
    SameFieldsSameStatus(Resolved(later, a, p).status, p.status);
    assert Resolved(later, a, p).conditions == p.conditions;
  }

  lemma JudgeSettles(at: Stamp, later: Stamp, a: Answers, r: NodeClass)
    requires HasAll(r) && at.generation == later.generation
    ensures var p := Step(at, a, r, ValidationSucceeded); Step(later, a, p, ValidationSucceeded) == p
  {
    var p := Step(at, a, r, ValidationSucceeded);
    JudgeFrame(r, p, a.catalog);
    assert Step(later, a, p, ValidationSucceeded).conditions == p.conditions;
  }

  lemma PassFields(o: NodeClass, a: Answers, now: int)
    ensures var at, p := Stamp(o.generation, now), Pass(o, a, now);
      var i := Initialised(at, o);
      forall t: ConditionType | t != ValidationSucceeded ::
        p.conditions[t] == NextCondition(at, a, i, t) && SameField(p.status, ResolvedStatus(at, a, i), t)
  {
    PassIsResolveThenJudge(o, a, now);
    var at := Stamp(o.generation, now);
    JudgeTouchesLocations(at, a, Resolved(at, a, Initialised(at, o)));
  }

  lemma JudgeTouchesLocations(at: Stamp, a: Answers, r: NodeClass)
    requires HasAll(r)
    ensures var p := Step(at, a, r, ValidationSucceeded);
      forall t: ConditionType | t != ValidationSucceeded :: p.conditions[t] == r.conditions[t] && SameField(p.status, r.status, t)
  {
  }

  /** The object a pass leaves is a fixed point of that pass, at any later time: nothing to patch, nothing to announce. */
  lemma PassIdempotent(o: NodeClass, a: Answers, now: int, later: int)
    ensures var p := Pass(o, a, now);
      && Pass(p, a, later) == p
      && !Announces(p.conditions[SSHKeysReady], Pass(p, a, later).conditions[SSHKeysReady], SSHKeysNarrowed)
      && !Announces(p.conditions[ValidationSucceeded], Pass(p, a, later).conditions[ValidationSucceeded], LocationsNarrowed)
  {
    var at, at' := Stamp(o.generation, now), Stamp(o.generation, later);
    var i, p := Initialised(at, o), Pass(o, a, now);
    PassIsResolveThenJudge(o, a, now);
    PassIsResolveThenJudge(p, a, later);
    assert Initialised(at', p) == p by {
      assert Initialised(at', p).conditions == p.conditions;
    }
    PassFields(o, a, now);
    ResolversSettle(at, at', a, i, p);
    JudgeSettles(at, at', a, Resolved(at, a, i));
  }
}
