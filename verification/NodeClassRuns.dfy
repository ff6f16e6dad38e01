/**
 * Runs of the NodeClass controller against the API server: passes computed from
 * a read, landed under an optimistic lock, with spec edits in between, and what
 * a Ready class then guarantees to a launch.
 */
module NodeClassRuns {
  import opened Common
  import opened Errors
  import opened NodeClassTypes
  import opened InstanceTypes
  import opened Sorting
  import opened Conditions
  import opened Resolvers
  import opened LocationScope
  import opened Validation
  import opened NodeClassPass
  import opened Servers
  import opened Request
  import opened Drift
  import Unavailable

  // ---------------------------------------------------------------- what a condition that holds promises

  /** The status field behind `t` is complete for `spec`. */
  predicate Complete(spec: Spec, status: Status, t: ConditionType)
  {
    match t
    case ImageReady => status.image.Some? && status.image.value.id != 0
    case NetworkReady =>
      && (status.network.Some? <==> spec.network.Some?)
      && (status.network.Some? ==> status.network.value.id != 0 && status.network.value.zone != "")
    case FirewallsReady => |status.firewalls| == |spec.firewalls|
    case SSHKeysReady => |status.sshKeys| <= |spec.sshKeys|
    case PlacementGroupReady => status.placementGroup.Some? <==> spec.placementGroup.Some?
    case BootstrapDiscoveryReady =>
      && status.apiServerEndpoint != "" && status.caCertHashes != []
      && forall i | 0 <= i < |status.caCertHashes| :: ValidHash(status.caCertHashes[i])
    case ValidationSucceeded => status.locations != []
  }

  /** Hetzner ids start at one. */
  predicate RealIds(a: Answers)
  {
    && (a.image.Ok? ==> a.image.value.id != 0)
    && (a.network.Ok? ==> a.network.value.id != 0)
  }

  ghost predicate Sound(o: NodeClass)
  {
    && (forall t | t in o.conditions :: o.conditions[t].observedGeneration <= o.generation)
    && (forall t: ConditionType | HoldsNow(o, t) :: Complete(o.spec, o.status, t))
    && (HoldsNow(o, ValidationSucceeded) ==> DependenciesHold(o))
    && (ValidationSucceeded in o.conditions && o.conditions[ValidationSucceeded].status.IsTrue? <==> o.status.locations != [])
  }

  lemma {:induction false} FirewallsInOrder(answer: nat -> Result<FirewallStatus, Err>, n: nat)
    requires First(FirewallFailures(answer), AnyFailure, n).None?
    ensures |ResolvedFirewalls(answer, n)| == n
    ensures forall i: nat | i < n :: answer(i).Ok? && ResolvedFirewalls(answer, n)[i] == answer(i).value
  {
    assert forall i: nat | i < n :: !FailsAs(FirewallFailures(answer), i, AnyFailure);
    if n > 0 {
      FirewallsInOrder(answer, n - 1);
    }
  }

  lemma {:induction false} KeysAtMost(answer: nat -> Result<SSHKeyStatus, Err>, n: nat)
    ensures |ResolvedSSHKeys(answer, n)| <= n
  {
    if n > 0 {
      KeysAtMost(answer, n - 1);
    }
  }

  /** A resolver that leaves its condition holding leaves its field complete. */
  lemma ResolverCompletes(at: Stamp, a: Answers, o: NodeClass, t: ConditionType)
    requires HasAll(o) && t != ValidationSucceeded && at.generation == o.generation && RealIds(a)
    requires Holds(o.conditions[t], o.generation) ==> Complete(o.spec, o.status, t)
    requires Holds(NextCondition(at, a, o, t), o.generation)
    ensures Complete(o.spec, ResolvedStatus(at, a, o), t)
  {
    match t
    case FirewallsReady =>
      if First(FirewallFailures(a.firewall), AnyFailure, |o.spec.firewalls|).None? {
        FirewallsInOrder(a.firewall, |o.spec.firewalls|);
      }
      FirewallsRecord(at, o.spec.firewalls, a.firewall, Cell(o.conditions[t], o.status.firewalls));
    case SSHKeysReady =>
      KeysAtMost(a.sshKey, |o.spec.sshKeys|);
    case BootstrapDiscoveryReady =>
      var r := ResolveJoin(a.discovered, Override(o.spec));
      if r.Some? {
        NoBadHashes(r.value.hashes);
      }
    case _ =>
  }

  lemma GenerationBound(at: Stamp, a: Answers, o: NodeClass, t: ConditionType)
    requires HasAll(o) && t != ValidationSucceeded
    requires o.conditions[t].observedGeneration <= at.generation
    ensures NextCondition(at, a, o, t).observedGeneration <= at.generation
  {
  }

  lemma CompleteIsLocal(spec: Spec, s: Status, s': Status, t: ConditionType)
    requires SameField(s, s', t)
    ensures Complete(spec, s, t) <==> Complete(spec, s', t)
  {
  }

  lemma PassSoundAt(o: NodeClass, a: Answers, now: int, t: ConditionType)
    requires Sound(o) && RealIds(a) && t != ValidationSucceeded
    ensures var p := Pass(o, a, now);
      p.conditions[t].observedGeneration <= p.generation && (HoldsNow(p, t) ==> Complete(p.spec, p.status, t))
  {
    var at := Stamp(o.generation, now);
    var i, p := Initialised(at, o), Pass(o, a, now);
    PassFields(o, a, now);
    assert p.conditions[t] == NextCondition(at, a, i, t);
    GenerationBound(at, a, i, t);
    if HoldsNow(p, t) {
      assert Holds(i.conditions[t], i.generation) ==> HoldsNow(o, t);
      ResolverCompletes(at, a, i, t);
      CompleteIsLocal(o.spec, p.status, ResolvedStatus(at, a, i), t);
    }
  }

  lemma PassSound(o: NodeClass, a: Answers, now: int)
    requires Sound(o) && RealIds(a)
    ensures Sound(Pass(o, a, now))
  {
    var p := Pass(o, a, now);
    PassValidates(o, a, now);
    forall t: ConditionType
      ensures p.conditions[t].observedGeneration <= p.generation
      ensures HoldsNow(p, t) ==> Complete(p.spec, p.status, t)
    {
      if t != ValidationSucceeded {
        PassSoundAt(o, a, now, t);
      }
    }
  }

  // ---------------------------------------------------------------- runs

  /** A pass between its read and its patch: the resource version it read, and the object it wants stored. */
  datatype Working = Working(version: nat, result: NodeClass)

  datatype State = State(stored: NodeClass, version: nat, working: Option<Working>)

  /**
   * Edit: somebody writes spec, which moves the generation only if it differs.
   * Touch: some other write to the object (labels, annotations).
   * Begin: a pass reads the object and runs. Patch: it tries to store its result.
   * Abandon: the process dies or the patch is lost before it reaches the server.
   */
  datatype Event = Edit(spec: Spec) | Touch | Begin(answers: Answers, now: int) | Patch | Abandon

  ghost function Next(s: State, e: Event): State
  {
    match e
    case Edit(spec) =>
      if spec == s.stored.spec then s.(version := s.version + 1)
      else s.(stored := s.stored.(spec := spec, generation := s.stored.generation + 1), version := s.version + 1)
    case Touch => s.(version := s.version + 1)
    case Begin(a, now) => s.(working := Some(Working(s.version, Pass(s.stored, a, now))))
    case Patch =>
      if s.working.None? then s
      else
        var w := s.working.value;
        var idle := s.(working := None);
        // Only the holder of the current resource version may write.
        if w.version == s.version && w.result != s.stored then idle.(stored := w.result, version := s.version + 1) else idle
    case Abandon => s.(working := None)
  }

  ghost function Exec(s: State, es: seq<Event>): State
  {
    if es == [] then s else Next(Exec(s, es[..|es| - 1]), es[|es| - 1])
  }

  const NO_STATUS := Status(None, None, [], [], None, [], "", [])

  function Created(spec: Spec): State
  {
    State(NodeClass(1, spec, NO_STATUS, map[]), 0, None)
  }

  ghost predicate Believable(es: seq<Event>)
  {
    forall i | 0 <= i < |es| && es[i].Begin? :: RealIds(es[i].answers)
  }

  ghost predicate Inv(s: State)
  {
    && Sound(s.stored)
    && (s.working.Some? ==> s.working.value.version <= s.version && Sound(s.working.value.result))
    && (s.working.Some? && s.working.value.version == s.version ==>
          s.working.value.result.spec == s.stored.spec && s.working.value.result.generation == s.stored.generation)
  }

  /** An edit makes every earlier conclusion stale at once. */
  lemma EditSound(o: NodeClass, spec: Spec)
    requires Sound(o)
    ensures Sound(o.(spec := spec, generation := o.generation + 1))
  {
    var p := o.(spec := spec, generation := o.generation + 1);
    forall t: ConditionType ensures !HoldsNow(p, t) {
    }
  }

  lemma NextInv(s: State, e: Event)
    requires Inv(s) && (e.Begin? ==> RealIds(e.answers))
    ensures Inv(Next(s, e))
  {
    match e
    case Edit(spec) => EditSound(s.stored, spec);
    case Begin(a, now) => PassSound(s.stored, a, now);
    case _ =>
  }

  lemma {:induction false} ExecInv(spec: Spec, es: seq<Event>)
    requires Believable(es)
    ensures Inv(Exec(Created(spec), es))
  {
    if es != [] {
      var n := |es| - 1;
      assert forall i | 0 <= i < n :: es[..n][i] == es[i];
      ExecInv(spec, es[..n]);
      assert es[n].Begin? ==> RealIds(es[n].answers);
      NextInv(Exec(Created(spec), es[..n]), es[n]);
    }
  }

  /** What the operator last wrote. */
  function LastSpec(spec: Spec, es: seq<Event>): Spec
  {
    if es == [] then spec
    else if es[|es| - 1].Edit? then es[|es| - 1].spec
    else LastSpec(spec, es[..|es| - 1])
  }

  /** In every run no pass ever undoes an edit, however late its patch arrives: the spec stored is the one last written. */
  lemma {:induction false} EditsNeverLost(spec: Spec, es: seq<Event>)
    requires Believable(es)
    ensures Exec(Created(spec), es).stored.spec == LastSpec(spec, es)
  {
    if es != [] {
      var n := |es| - 1;
      assert forall i | 0 <= i < n :: es[..n][i] == es[i];
      EditsNeverLost(spec, es[..n]);
      ExecInv(spec, es[..n]);
    }
  }

  // ---------------------------------------------------------------- what every reachable class guarantees

  /** What the bootstrap provider's Render demands of the class. */
  predicate Joinable(status: Status)
  {
    status.apiServerEndpoint != "" && status.caCertHashes != []
  }

  ghost predicate Launchable(cluster: string, o: NodeClass)
  {
    && (cluster != "" ==> Orderable(cluster, o.status))
    && Joinable(o.status)
    && (forall i | 0 <= i < |o.status.caCertHashes| :: ValidHash(o.status.caCertHashes[i]))
    && |o.status.firewalls| == |o.spec.firewalls|
    && (o.status.network.Some? <==> o.spec.network.Some?)
    && (o.status.placementGroup.Some? <==> o.spec.placementGroup.Some?)
    && o.status.locations != []
  }

  /** In every run, a class stored as Ready can be launched against; neither order nor join parameters are refused. */
  lemma ReadyIsLaunchable(cluster: string, spec: Spec, es: seq<Event>)
    requires Believable(es)
    ensures var o := Exec(Created(spec), es).stored; Ready(o) ==> Launchable(cluster, o)
  {
    ExecInv(spec, es);
    var o := Exec(Created(spec), es).stored;
    if Ready(o) {
      forall t: ConditionType ensures Complete(o.spec, o.status, t) {
        assert HoldsNow(o, t);
      }
      assert Complete(o.spec, o.status, ImageReady) && Complete(o.spec, o.status, NetworkReady);
      assert Complete(o.spec, o.status, FirewallsReady) && Complete(o.spec, o.status, PlacementGroupReady);
      assert Complete(o.spec, o.status, BootstrapDiscoveryReady) && Complete(o.spec, o.status, ValidationSucceeded);
    }
  }

  /**
   * In every run, at every moment: validation is True exactly when locations are
   * published; when it is True of this revision the class is Ready, and the next
   * pass, whatever it is answered, again validates exactly.
   */
  lemma ValidationInEveryRun(spec: Spec, es: seq<Event>, a: Answers, now: int)
    requires Believable(es)
    ensures var o := Exec(Created(spec), es).stored;
      && (ValidationSucceeded in o.conditions && o.conditions[ValidationSucceeded].status.IsTrue? <==> o.status.locations != [])
      && (HoldsNow(o, ValidationSucceeded) <==> Ready(o))
      && Validated(Pass(o, a, now), a.catalog)
  {
    ExecInv(spec, es);
    PassValidates(Exec(Created(spec), es).stored, a, now);
  }

  // ---------------------------------------------------------------- launch, then drift

  /** A server ordered from a reachable Ready class into a published location has nothing to drift on. */
  lemma LaunchFromReadyNeverDrifts(cluster: string, claim: string, pool: string, userData: string, spec: Spec, es: seq<Event>,
                                   serverType: string, l: LocationStatus, srv: Server)
    requires Believable(es) && cluster != ""
    requires Ready(Exec(Created(spec), es).stored) && l in Exec(Created(spec), es).stored.status.locations
    requires var o := Exec(Created(spec), es).stored;
      Orderable(cluster, o.status) ==>
        ReadBack(RequestFor(cluster, claim, pool, o.spec, o.status, userData).(serverType := serverType, location := l.name), srv)
    ensures var o := Exec(Created(spec), es).stored; DriftReason(o.spec, o.status, srv).None?
  {
    ReadyIsLaunchable(cluster, spec, es);
    var o := Exec(Created(spec), es).stored;
    LaunchThenDrift(cluster, claim, pool, userData, o.spec, o.status, serverType, l.name, srv);
  }

  // ---------------------------------------------------------------- what Build offers, and what drifts at once

  /** `o` is an offering of Build for class `c`, over the catalog as it is when Build runs. */
  ghost predicate OfferedFor(c: NodeClass, sts: seq<ServerType>, terms: Terms, it: InstanceType, o: Offering)
  {
    terms.locations == c.spec.locations && it in Sort(Unsorted(sts, terms), NameLe) && o in it.offerings
  }

  /** The catalog puts the location in a known zone that is not the network's. */
  predicate KnownElsewhere(sts: seq<ServerType>, name: string, networkZone: string)
  {
    name in ZonesOf(sts) && DifferentKnownZone(ZonesOf(sts)[name], networkZone)
  }

  lemma OfferedIsSold(c: NodeClass, sts: seq<ServerType>, terms: Terms, it: InstanceType, o: Offering)
    requires OfferedFor(c, sts, terms, it, o)
    ensures o.location in ZonesOf(sts) && Sold(sts, o.location) && InScope(terms, o.location)
  {
    BuildExact(sts, terms, it);
    var i :| 0 <= i < |sts| && BuiltFrom(sts[i], terms, it);
    OfferingsExact(sts[i], sts[i].locations, terms, o);
    var j :| 0 <= j < |sts[i].locations| && OffersAt(sts[i], sts[i].locations[j], terms, o);
    assert sts[i].locations[j] in sts[i].locations;
    assert SoldAt(sts[i], o.location);
    ZonesExact(sts, o.location);
  }

  lemma PublishedByName(c: NodeClass, catalog: Option<seq<ServerType>>, name: string)
    requires LocationsExact(c, catalog, c.status.locations)
    ensures (exists i :: 0 <= i < |c.status.locations| && c.status.locations[i].name == name)
      <==> Usable(catalog.value, c.spec.locations, NetworkZone(c.status.network), name)
  {
    if Usable(catalog.value, c.spec.locations, NetworkZone(c.status.network), name) {
      var l := LocationStatus(name, ZonesOf(catalog.value)[name]);
      assert l in c.status.locations;
    }
    if i :| 0 <= i < |c.status.locations| && c.status.locations[i].name == name {
      assert c.status.locations[i] in c.status.locations;
    }
  }

  /** The location was not usable when the class was last validated: not sold then, or known to be out of reach. */
  ghost predicate NotUsableAt(sts: seq<ServerType>, name: string, networkZone: string)
  {
    !Sold(sts, name) || KnownElsewhere(sts, name, networkZone)
  }

  /**
   * Build filters on spec.locations and the catalog of the moment; validation
   * used the catalog of its own pass, and the network's zone. For a class
   * validated over `sts`, a location Build offers over `current` has already left
   * the published set, so that a server placed there drifts at once, exactly when
   * the operator wrote the list down and the location was not sold at that pass
   * or is in a known zone other than the network's.
   */
  lemma OfferedLocationLeftIff(c: NodeClass, sts: seq<ServerType>, current: seq<ServerType>, terms: Terms, it: InstanceType, o: Offering)
    requires Validated(c, Some(sts)) && c.status.locations != [] && OfferedFor(c, current, terms, it, o)
    ensures LocationLeft(c.spec, c.status, o.location) <==>
      c.spec.locations != [] && o.location != "" && NotUsableAt(sts, o.location, NetworkZone(c.status.network))
    ensures current == sts ==> Sold(sts, o.location)
  {
    OfferedIsSold(c, current, terms, it, o);
    ZonesExact(sts, o.location);
    PublishedByName(c, Some(sts), o.location);
  }

  /** The same of the server itself: ordered from a validated class at an offering of Build and read back. */
  lemma OfferedServerDriftsIff(cluster: string, claim: string, pool: string, userData: string, c: NodeClass, sts: seq<ServerType>,
                               current: seq<ServerType>, terms: Terms, it: InstanceType, o: Offering, srv: Server)
    requires Validated(c, Some(sts)) && c.status.locations != [] && OfferedFor(c, current, terms, it, o)
    requires Orderable(cluster, c.status)
    requires ReadBack(RequestFor(cluster, claim, pool, c.spec, c.status, userData).(serverType := it.name, location := o.location), srv)
    ensures DriftReason(c.spec, c.status, srv) ==
      if c.spec.locations != [] && o.location != "" && NotUsableAt(sts, o.location, NetworkZone(c.status.network))
      then Some(LocationDrift) else None
  {
    OfferedLocationLeftIff(c, sts, current, terms, it, o);
    LaunchThenDrift(cluster, claim, pool, userData, c.spec, c.status, it.name, o.location, srv);
  }

  const TWO_ZONES := ServerType("cx22", SUPPORTED_ARCHITECTURE, false, map["nbg1" := 4.0, "ash" := 4.0],
    [SoldIn("nbg1", "eu-central", false), SoldIn("ash", "us-east", false)], map[])

  /** A class that writes down both locations, on a network in the first one's zone, as validation leaves it. */
  const BOTH_WRITTEN := NodeClass(
    1,
    Spec(ById(1), false, ["nbg1", "ash"], Some(ById(1)), [], [], None, true, true, map[], "", []),
    NO_STATUS.(network := Some(NetworkStatus(1, "net", "10.0.0.0/8", "eu-central")),
               locations := [LocationStatus("nbg1", "eu-central")]),
    map t: ConditionType :: Condition(IsTrue, Conditions.Resolved, NoMessage, 1, 0))

  const UNSUPPRESSED := Terms(["nbg1", "ash"], false, 0.0, (k: Unavailable.Key) => false)

  lemma ZonesOfTwo()
    ensures ZonesOf([TWO_ZONES]) == map["nbg1" := "eu-central", "ash" := "us-east"]
  {
    var locs := TWO_ZONES.locations;
    assert locs[..1][..0] == [] && locs[..1] == [locs[0]];
    assert AddZones(map[], locs[..1]) == map["nbg1" := "eu-central"];
    assert AddZones(map[], locs) == map["nbg1" := "eu-central", "ash" := "us-east"];
    assert [TWO_ZONES][..0] == [];
  }

  lemma BothWrittenValidated()
    ensures Validated(BOTH_WRITTEN, Some([TWO_ZONES])) && BOTH_WRITTEN.status.locations != []
  {
    ZonesOfTwo();
    var c, sts := BOTH_WRITTEN, [TWO_ZONES];
    forall name ensures Sold(sts, name) <==> name in ZonesOf(sts) {
      ZonesExact(sts, name);
    }
    assert forall name :: Usable(sts, c.spec.locations, "eu-central", name) <==> name == "nbg1" by {
      assert "nbg1" == c.spec.locations[0] && "nbg1" in ZonesOf(sts);
      assert |"ash"| == 3 && |"nbg1"| == 4;
    }
    assert LocationsExact(c, Some(sts), c.status.locations);
  }

  /** It happens: Build offers the class a location across the ocean from its network, and a server there drifts at once. */
  lemma OfferedOutsideZone() returns (it: InstanceType, o: Offering)
    ensures Validated(BOTH_WRITTEN, Some([TWO_ZONES])) && OfferedFor(BOTH_WRITTEN, [TWO_ZONES], UNSUPPRESSED, it, o)
    ensures o.available && LocationLeft(BOTH_WRITTEN.spec, BOTH_WRITTEN.status, o.location)
  {
    BothWrittenValidated();
    var st, terms := TWO_ZONES, UNSUPPRESSED;
    o := OfferingFor(st, st.locations[1], terms);
    OfferingsExact(st, st.locations, terms, o);
    assert Offered(st, st.locations[1], terms) by {
      assert "ash" == terms.locations[1];
    }
    OfferedIffOffersAt(st, st.locations[1], terms, o);
    it := InstanceType(st.name, OfferingsOf(st, st.locations, terms), st.allocatable);
    assert [st][..0] == [] && Unsorted([st], terms) == [it];
    NameLeTotal();
    SortMembers(Unsorted([st], terms), NameLe);
    ZonesOfTwo();
    OfferedLocationLeftIff(BOTH_WRITTEN, [st], [st], terms, it, o);
  }

  // ---------------------------------------------------------------- an outage

  /** Every selected resource is unreachable in this pass. */
  ghost predicate Outage(o: NodeClass, a: Answers)
  {
    && ImageOutcome(a.image).Transient?
    && (o.spec.network.Some? ==> NetworkOutcome(o.spec.network, a.network).Transient?)
    && (o.spec.firewalls != [] ==> OutcomeOf(o.spec, a, FirewallsReady).Transient?)
    && (o.spec.placementGroup.Some? ==> PlacementGroupOutcome(o.spec.placementGroup, a.placementGroup).Transient?)
  }

  lemma OutageKeepsStatus(o: NodeClass, a: Answers, now: int)
    requires Sound(o) && Ready(o) && Outage(o, a)
    ensures var s := Pass(o, a, now).status;
      && s.image == o.status.image && s.network == o.status.network
      && s.firewalls == o.status.firewalls && s.placementGroup == o.status.placementGroup
  {
    var at := Stamp(o.generation, now);
    var i, s := Initialised(at, o), ResolvedStatus(Stamp(o.generation, now), a, Initialised(Stamp(o.generation, now), o));
    PassFields(o, a, now);
    forall t: ConditionType ensures Complete(o.spec, o.status, t) {
      assert HoldsNow(o, t);
    }
    assert Complete(o.spec, o.status, NetworkReady) && Complete(o.spec, o.status, FirewallsReady);
    assert Complete(o.spec, o.status, PlacementGroupReady);
    var p := Pass(o, a, now).status;
    assert SameField(p, s, ImageReady) && SameField(p, s, NetworkReady);
    assert SameField(p, s, FirewallsReady) && SameField(p, s, PlacementGroupReady);
    assert s.image == o.status.image;
    assert s.network == o.status.network;
    assert s.placementGroup == o.status.placementGroup;
    assert s.firewalls == o.status.firewalls;
  }

  /**
   * An outage does not replace nodes: for a class that was Ready, a pass that
   * reaches nothing leaves every server's drift verdict as it was, except that a
   * location the catalog has since dropped may now be left.
   */
  lemma OutageDoesNotDrift(o: NodeClass, a: Answers, now: int, srv: Server)
    requires Sound(o) && Ready(o) && Outage(o, a)
    requires DriftReason(o.spec, o.status, srv).None?
    ensures var p := Pass(o, a, now);
      DriftReason(p.spec, p.status, srv) == if LocationLeft(p.spec, p.status, srv.location) then Some(LocationDrift) else None
    ensures var p := Pass(o, a, now);
      (a.catalog.Some? && Usable(a.catalog.value, o.spec.locations, NetworkZone(o.status.network), srv.location))
      ==> DriftReason(p.spec, p.status, srv).None?
  {
    OutageKeepsStatus(o, a, now);
    PassValidates(o, a, now);
    var p := Pass(o, a, now);
    if a.catalog.Some? && Usable(a.catalog.value, o.spec.locations, NetworkZone(o.status.network), srv.location)
       && p.status.locations != [] {
      var l := LocationStatus(srv.location, ZonesOf(a.catalog.value)[srv.location]);
      assert l in p.status.locations;
      var i :| 0 <= i < |p.status.locations| && p.status.locations[i] == l;
      assert !LocationLeft(p.spec, p.status, srv.location);
    }
  }
}
