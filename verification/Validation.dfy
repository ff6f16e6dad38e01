/**
 * The validation sub-reconciler: the verdict on a NodeClass whose parts have
 * been resolved, and the locations it may place nodes in
 * (internal/controllers/nodeclass/validation.go).
 */
module Validation {
  import opened Common
  import opened NodeClassTypes
  import opened InstanceTypes
  import opened Conditions
  import opened LocationScope

  /** A stored HCloudNodeClass. A condition nobody has written yet is absent. */
  datatype NodeClass = NodeClass(generation: nat, spec: Spec, status: Status, conditions: map<ConditionType, Condition>)

  function ConditionOf(at: Stamp, o: NodeClass, t: ConditionType): Condition
  {
    if t in o.conditions then o.conditions[t] else Initial(at)
  }

  predicate HoldsNow(o: NodeClass, t: ConditionType)
  {
    t in o.conditions && Holds(o.conditions[t], o.generation)
  }

  const REQUIRED := [ImageReady, NetworkReady, FirewallsReady, SSHKeysReady, PlacementGroupReady, BootstrapDiscoveryReady]

  lemma RequiredIsEveryDependency(t: ConditionType)
    ensures t in REQUIRED <==> t != ValidationSucceeded
  {
    assert REQUIRED[0].ImageReady? && REQUIRED[1].NetworkReady? && REQUIRED[2].FirewallsReady?;
    assert REQUIRED[3].SSHKeysReady? && REQUIRED[4].PlacementGroupReady? && REQUIRED[5].BootstrapDiscoveryReady?;
  }

  predicate HasAll(o: NodeClass)
  {
    forall t: ConditionType :: t in o.conditions
  }

  // ---------------------------------------------------------------- dependencies

  datatype Holdup = FailedDependency | PendingDependency | NoHoldup

  /** True about an older revision of the spec is pending, not resolved. */
  function HoldupOf(c: Condition, generation: nat): Holdup
  {
    if c.status.IsFalse? then FailedDependency
    else if c.status.IsUnknown? || c.observedGeneration != generation then PendingDependency
    else NoHoldup
  }

  function HeldBack(o: NodeClass, kind: Holdup, ts: seq<ConditionType>): (r: seq<ConditionType>)
    requires HasAll(o)
    ensures forall t :: t in r <==> t in ts && HoldupOf(o.conditions[t], o.generation) == kind
  {
    if ts == [] then []
    else
      var n := |ts| - 1;
      var rest := HeldBack(o, kind, ts[..n]);
      assert ts == ts[..n] + [ts[n]];
      if HoldupOf(o.conditions[ts[n]], o.generation) == kind then rest + [ts[n]] else rest
  }

  method CollectHoldups(o: NodeClass) returns (failed: seq<ConditionType>, pending: seq<ConditionType>)
    requires HasAll(o)
    ensures failed == HeldBack(o, FailedDependency, REQUIRED)
    ensures pending == HeldBack(o, PendingDependency, REQUIRED)
  {
    failed, pending := [], [];
    for i := 0 to |REQUIRED|
      invariant failed == HeldBack(o, FailedDependency, REQUIRED[..i])
      invariant pending == HeldBack(o, PendingDependency, REQUIRED[..i])
    {
      assert REQUIRED[..i + 1][..i] == REQUIRED[..i];
      var c := o.conditions[REQUIRED[i]];
      if c.status.IsFalse? {
        failed := failed + [REQUIRED[i]];
      } else if c.status.IsUnknown? {
        pending := pending + [REQUIRED[i]];
      } else if c.observedGeneration != o.generation {
        pending := pending + [REQUIRED[i]];
      }
    }
    assert REQUIRED[..|REQUIRED|] == REQUIRED;
  }

  predicate DependenciesHold(o: NodeClass)
  {
    forall t: ConditionType | t != ValidationSucceeded :: HoldsNow(o, t)
  }

  predicate SomeDependencyFailed(o: NodeClass)
  {
    exists t: ConditionType :: t != ValidationSucceeded && t in o.conditions && o.conditions[t].status.IsFalse?
  }

  lemma HeldBackExact(o: NodeClass)
    requires HasAll(o)
    ensures HeldBack(o, FailedDependency, REQUIRED) == [] <==> !SomeDependencyFailed(o)
    ensures HeldBack(o, FailedDependency, REQUIRED) == [] && HeldBack(o, PendingDependency, REQUIRED) == []
      <==> DependenciesHold(o)
  {
    var failed, pending := HeldBack(o, FailedDependency, REQUIRED), HeldBack(o, PendingDependency, REQUIRED);
    forall t: ConditionType ensures t in REQUIRED <==> t != ValidationSucceeded {
      RequiredIsEveryDependency(t);
    }
    if failed != [] {
      assert failed[0] in failed && !HoldsNow(o, failed[0]);
    }
    if pending != [] {
      assert pending[0] in pending && !HoldsNow(o, pending[0]);
    }
    if failed == [] && pending == [] {
      forall t: ConditionType | t != ValidationSucceeded ensures HoldsNow(o, t) {
        assert t !in failed && t !in pending;
      }
    }
  }

  lemma {:induction false} HeldBackFrame(o: NodeClass, p: NodeClass, kind: Holdup, ts: seq<ConditionType>)
    requires HasAll(o) && HasAll(p) && o.generation == p.generation
    requires forall t | t in ts :: o.conditions[t] == p.conditions[t]
    ensures HeldBack(o, kind, ts) == HeldBack(p, kind, ts)
  {
    if ts != [] {
      HeldBackFrame(o, p, kind, ts[..|ts| - 1]);
    }
  }

  // ---------------------------------------------------------------- the verdict

  datatype Verdict = Verdict(status: ConditionStatus, reason: Reason, message: Message, locations: seq<LocationStatus>)

  predicate ArchitectureSupported(image: Option<ImageStatus>)
  {
    image.None? || image.value.architecture == "" || image.value.architecture == SUPPORTED_ARCHITECTURE
  }

  function NetworkZone(network: Option<NetworkStatus>): string
  {
    if network.Some? then network.value.zone else ""
  }

  function EmptyFailure(s: Scope): Reason
  {
    if s.outsideZone != [] && s.unknown != [] then NoUsableLocations
    else if s.outsideZone != [] then LocationsOutsideNetworkZone
    else if s.unknown != [] then UnknownLocations
    else NoLocationsAvailable
  }

  predicate Narrowed(s: Scope)
  {
    s.explicit && (s.outsideZone != [] || s.unknown != [])
  }

  function ScopeVerdict(s: Scope): Verdict
  {
    if s.inScope == [] then Verdict(IsFalse, EmptyFailure(s), Dropped(s.outsideZone, s.zone, s.unknown), [])
    else if Narrowed(s) then Verdict(IsTrue, LocationsNarrowed, Dropped(s.outsideZone, s.zone, s.unknown), s.inScope)
    else Verdict(IsTrue, Resolved, NoMessage, s.inScope)
  }

  ghost function Judge(o: NodeClass, catalog: Option<seq<ServerType>>): Verdict
    requires HasAll(o)
  {
    var failed := HeldBack(o, FailedDependency, REQUIRED);
    var pending := HeldBack(o, PendingDependency, REQUIRED);
    if failed != [] then Verdict(IsFalse, DependenciesNotReady, Awaiting(failed), [])
    else if pending != [] then Verdict(IsUnknown, DependenciesNotReady, Awaiting(pending), [])
    else if !ArchitectureSupported(o.status.image) then
      Verdict(IsFalse, ImageArchitectureUnsupported, Architecture(o.status.image.value.architecture), [])
    else if catalog.None? then Verdict(IsUnknown, CatalogNotFetched, NoMessage, [])
    else if ZonesOf(catalog.value) == map[] then Verdict(IsUnknown, CatalogEmpty, NoMessage, [])
    else ScopeVerdict(ScopeOf(catalog.value, o.spec.locations, NetworkZone(o.status.network)))
  }

  /** The verdict depends on nothing validation itself writes. */
  lemma JudgeFrame(o: NodeClass, p: NodeClass, catalog: Option<seq<ServerType>>)
    requires HasAll(o) && HasAll(p) && o.generation == p.generation && o.spec == p.spec
    requires forall t: ConditionType | t != ValidationSucceeded :: o.conditions[t] == p.conditions[t]
    requires o.status.image == p.status.image && o.status.network == p.status.network
    ensures Judge(o, catalog) == Judge(p, catalog)
  {
    forall t | t in REQUIRED ensures o.conditions[t] == p.conditions[t] {
      RequiredIsEveryDependency(t);
    }
    HeldBackFrame(o, p, FailedDependency, REQUIRED);
    HeldBackFrame(o, p, PendingDependency, REQUIRED);
  }

  /** The checks of Validation.Reconcile in order, before anything is written. */
  method Check(o: NodeClass, catalog: Option<seq<ServerType>>) returns (v: Verdict)
    requires HasAll(o)
    ensures v == Judge(o, catalog)
  {
    var failed, pending := CollectHoldups(o);
    if |failed| > 0 {
      return Verdict(IsFalse, DependenciesNotReady, Awaiting(failed), []);
    }
    if |pending| > 0 {
      return Verdict(IsUnknown, DependenciesNotReady, Awaiting(pending), []);
    }
    if o.status.image.Some? && o.status.image.value.architecture != ""
       && o.status.image.value.architecture != SUPPORTED_ARCHITECTURE {
      return Verdict(IsFalse, ImageArchitectureUnsupported, Architecture(o.status.image.value.architecture), []);
    }
    if catalog.None? {
      return Verdict(IsUnknown, CatalogNotFetched, NoMessage, []);
    }
    var scope, catalogEmpty := ComputeScope(catalog.value, o.spec.locations, NetworkZone(o.status.network));
    if catalogEmpty {
      return Verdict(IsUnknown, CatalogEmpty, NoMessage, []);
    }
    if |scope.inScope| == 0 {
      return Verdict(IsFalse, EmptyFailure(scope), Dropped(scope.outsideZone, scope.zone, scope.unknown), []);
    }
    if Narrowed(scope) {
      return Verdict(IsTrue, LocationsNarrowed, Dropped(scope.outsideZone, scope.zone, scope.unknown), scope.inScope);
    }
    return Verdict(IsTrue, Resolved, NoMessage, scope.inScope);
  }

  // ---------------------------------------------------------------- what the verdict means

  ghost predicate Sold(sts: seq<ServerType>, name: string)
  {
    exists i :: 0 <= i < |sts| && SoldAt(sts[i], name)
  }

  predicate DifferentKnownZone(zone: string, networkZone: string)
  {
    zone != "" && networkZone != "" && zone != networkZone
  }

  /** A location the class may use: allowed, sold, and not known to be out of the network's reach. */
  ghost predicate Usable(sts: seq<ServerType>, allowed: seq<string>, networkZone: string, name: string)
  {
    && (allowed == [] || name in allowed)
    && Sold(sts, name)
    && name in ZonesOf(sts) && !DifferentKnownZone(ZonesOf(sts)[name], networkZone)
  }

  ghost predicate SomeUsable(sts: seq<ServerType>, allowed: seq<string>, networkZone: string)
  {
    exists name :: Usable(sts, allowed, networkZone, name)
  }

  lemma CandidatesExact(sts: seq<ServerType>, allowed: seq<string>, name: string)
    ensures name in CandidateNames(ZonesOf(sts), allowed) <==> if allowed == [] then Sold(sts, name) else name in allowed
  {
    SortedNamesExact(ZonesOf(sts).Keys, name);
    ZonesExact(sts, name);
  }

  lemma InScopeMeansUsable(sts: seq<ServerType>, allowed: seq<string>, networkZone: string, name: string)
    ensures name in CandidateNames(ZonesOf(sts), allowed) && PartOf(ZonesOf(sts), networkZone, name).InScopePart?
      <==> Usable(sts, allowed, networkZone, name)
  {
    CandidatesExact(sts, allowed, name);
    ZonesExact(sts, name);
  }

  /** The published set is exactly the usable locations, each once, and empty only when there is none. */
  lemma ScopeExact(sts: seq<ServerType>, allowed: seq<string>, networkZone: string)
    ensures var s := ScopeOf(sts, allowed, networkZone);
      && DistinctNames(s.inScope)
      && (forall l :: l in s.inScope <==>
            Usable(sts, allowed, networkZone, l.name) && l == LocationStatus(l.name, ZonesOf(sts)[l.name]))
      && (s.inScope != [] <==> SomeUsable(sts, allowed, networkZone))
  {
    var zones := ZonesOf(sts);
    var names := CandidateNames(zones, allowed);
    PartitionExact(zones, networkZone, allowed != [], names);
    var s := ScopeOf(sts, allowed, networkZone);
    forall name ensures name in names && PartOf(zones, networkZone, name).InScopePart? <==> Usable(sts, allowed, networkZone, name) {
      InScopeMeansUsable(sts, allowed, networkZone, name);
    }
    if s.inScope != [] {
      assert s.inScope[0] in s.inScope;
    }
    if name :| Usable(sts, allowed, networkZone, name) {
      assert LocationStatus(name, zones[name]) in s.inScope;
    }
  }

  /** The last arm of emptyFailure cannot be reached past the empty-catalog check. */
  lemma NeverNoLocationsAvailable(sts: seq<ServerType>, allowed: seq<string>, networkZone: string)
    requires ZonesOf(sts) != map[]
    ensures var s := ScopeOf(sts, allowed, networkZone); s.inScope == [] ==> EmptyFailure(s) != NoLocationsAvailable
  {
    var zones := ZonesOf(sts);
    var names := CandidateNames(zones, allowed);
    PartitionExact(zones, networkZone, allowed != [], names);
    var s := ScopeOf(sts, allowed, networkZone);
    var x: string;
    if allowed == [] {
      x :| x in zones;
      SortedNamesExact(zones.Keys, x);
    } else {
      x := allowed[0];
    }
    match PartOf(zones, networkZone, x)
    case UnknownPart => assert x in s.unknown;
    case OutsideZonePart => assert x in s.outsideZone;
    case InScopePart => assert LocationStatus(x, zones[x]) in s.inScope;
  }

  ghost predicate CatalogKnown(catalog: Option<seq<ServerType>>)
  {
    catalog.Some? && ZonesOf(catalog.value) != map[]
  }

  /** What this class could use, given its own network and the catalog. */
  ghost predicate CanPlace(o: NodeClass, catalog: Option<seq<ServerType>>)
  {
    catalog.Some? && SomeUsable(catalog.value, o.spec.locations, NetworkZone(o.status.network))
  }

  ghost predicate LocationsExact(o: NodeClass, catalog: Option<seq<ServerType>>, locations: seq<LocationStatus>)
  {
    && DistinctNames(locations)
    && catalog.Some?
    && forall l :: l in locations <==>
         && Usable(catalog.value, o.spec.locations, NetworkZone(o.status.network), l.name)
         && l == LocationStatus(l.name, ZonesOf(catalog.value)[l.name])
  }

  /**
   * The three verdicts, each exactly when it is given. Unknown catalog contents
   * never make a class False, and locations are published exactly with True.
   */
  lemma JudgeExact(o: NodeClass, catalog: Option<seq<ServerType>>)
    requires HasAll(o)
    ensures var v := Judge(o, catalog);
      && (v.status.IsTrue? <==> v.locations != [])
      && (v.status.IsTrue? <==>
            DependenciesHold(o) && ArchitectureSupported(o.status.image) && CanPlace(o, catalog))
      && (v.status.IsFalse? <==>
            SomeDependencyFailed(o)
            || (DependenciesHold(o)
                && (!ArchitectureSupported(o.status.image) || (CatalogKnown(catalog) && !CanPlace(o, catalog)))))
      && (v.status.IsTrue? ==> LocationsExact(o, catalog, v.locations))
      && (v.reason in {CatalogNotFetched, CatalogEmpty} <==>
            DependenciesHold(o) && ArchitectureSupported(o.status.image) && !CatalogKnown(catalog))
      && (v.reason in {CatalogNotFetched, CatalogEmpty} ==> v.status.IsUnknown?)
      && v.reason != NoLocationsAvailable
  {
    HeldBackExact(o);
    if catalog.Some? {
      var sts, allowed, zone := catalog.value, o.spec.locations, NetworkZone(o.status.network);
      ScopeExact(sts, allowed, zone);
      if ZonesOf(sts) != map[] {
        NeverNoLocationsAvailable(sts, allowed, zone);
      }
    }
  }

  // ---------------------------------------------------------------- what the reasons mean

  /** An image known to be built for another architecture than the one the provider sells. */
  ghost predicate ForeignImage(image: Option<ImageStatus>)
  {
    image.Some? && image.value.architecture !in {"", "x86"}
  }

  /** The operator wrote down a location that no supported type is sold in. */
  ghost predicate SomeUnsold(sts: seq<ServerType>, allowed: seq<string>)
  {
    exists name :: name in allowed && !Sold(sts, name)
  }

  /** The location is in scope and sold, in a known zone other than the network's. */
  ghost predicate Elsewhere(sts: seq<ServerType>, allowed: seq<string>, networkZone: string, name: string)
  {
    && (allowed == [] || name in allowed) && Sold(sts, name)
    && name in ZonesOf(sts) && ZonesOf(sts)[name] != "" && networkZone != "" && ZonesOf(sts)[name] != networkZone
  }

  ghost predicate SomeElsewhere(sts: seq<ServerType>, allowed: seq<string>, networkZone: string)
  {
    exists name :: Elsewhere(sts, allowed, networkZone, name)
  }

  lemma DroppedName(sts: seq<ServerType>, allowed: seq<string>, networkZone: string, name: string)
    ensures var s := ScopeOf(sts, allowed, networkZone);
      && (name in s.unknown <==> name in allowed && !Sold(sts, name))
      && (name in s.outsideZone <==> Elsewhere(sts, allowed, networkZone, name))
  {
    var zones := ZonesOf(sts);
    PartitionExact(zones, networkZone, allowed != [], CandidateNames(zones, allowed));
    CandidatesExact(sts, allowed, name);
    ZonesExact(sts, name);
  }

  lemma DroppedExact(sts: seq<ServerType>, allowed: seq<string>, networkZone: string)
    ensures var s := ScopeOf(sts, allowed, networkZone);
      && (forall name :: name in s.unknown <==> name in allowed && !Sold(sts, name))
      && (forall name :: name in s.outsideZone <==> Elsewhere(sts, allowed, networkZone, name))
      && (s.unknown != [] <==> SomeUnsold(sts, allowed))
      && (s.outsideZone != [] <==> SomeElsewhere(sts, allowed, networkZone))
      && s.explicit == (allowed != []) && s.zone == networkZone
  {
    var s := ScopeOf(sts, allowed, networkZone);
    PartitionExact(ZonesOf(sts), networkZone, allowed != [], CandidateNames(ZonesOf(sts), allowed));
    forall name
      ensures name in s.unknown <==> name in allowed && !Sold(sts, name)
      ensures name in s.outsideZone <==> Elsewhere(sts, allowed, networkZone, name)
    {
      DroppedName(sts, allowed, networkZone, name);
    }
    if s.unknown != [] {
      assert s.unknown[0] in s.unknown;
    }
    if s.outsideZone != [] {
      assert s.outsideZone[0] in s.outsideZone;
    }
  }

  /** The verdict's reason, and when it is given, for a class whose dependencies hold and whose image can run. */
  ghost predicate ScopeReason(o: NodeClass, sts: seq<ServerType>, v: Verdict)
  {
    var allowed, zone := o.spec.locations, NetworkZone(o.status.network);
    var unsold, elsewhere := SomeUnsold(sts, allowed), SomeElsewhere(sts, allowed, zone);
    v.reason ==
      if SomeUsable(sts, allowed, zone) then (if allowed != [] && (unsold || elsewhere) then LocationsNarrowed else Resolved)
      else if unsold && elsewhere then NoUsableLocations
      else if elsewhere then LocationsOutsideNetworkZone
      else UnknownLocations
  }

  /** The message names exactly the locations that were dropped, and why. */
  ghost predicate NamesDropped(o: NodeClass, sts: seq<ServerType>, m: Message)
  {
    var allowed, zone := o.spec.locations, NetworkZone(o.status.network);
    && m.Dropped? && m.zone == zone
    && (forall name :: name in m.unknown <==> name in allowed && !Sold(sts, name))
    && (forall name :: name in m.outsideZone <==> Elsewhere(sts, allowed, zone, name))
  }

  /** The message names exactly the dependencies that hold validation back: the failed ones if any, else the pending. */
  ghost predicate NamesHoldups(o: NodeClass, m: Message)
    requires HasAll(o)
  {
    m.Awaiting? && forall t :: t in m.conditions <==>
      && t != ValidationSucceeded
      && if SomeDependencyFailed(o) then o.conditions[t].status.IsFalse? else !HoldsNow(o, t)
  }

  lemma HoldupsNamed(o: NodeClass)
    requires HasAll(o) && !DependenciesHold(o)
    ensures var failed, pending := HeldBack(o, FailedDependency, REQUIRED), HeldBack(o, PendingDependency, REQUIRED);
      NamesHoldups(o, Awaiting(if failed != [] then failed else pending))
  {
    HeldBackExact(o);
    forall t: ConditionType ensures t in REQUIRED <==> t != ValidationSucceeded {
      RequiredIsEveryDependency(t);
    }
  }

  lemma MessagesExact(o: NodeClass, catalog: Option<seq<ServerType>>)
    requires HasAll(o)
    ensures var v := Judge(o, catalog);
      && (!DependenciesHold(o) ==> NamesHoldups(o, v.message))
      && (v.reason in {LocationsNarrowed, NoUsableLocations, LocationsOutsideNetworkZone, UnknownLocations} ==>
            catalog.Some? && NamesDropped(o, catalog.value, v.message))
  {
    HeldBackExact(o);
    if !DependenciesHold(o) {
      HoldupsNamed(o);
    } else if catalog.Some? {
      DroppedExact(catalog.value, o.spec.locations, NetworkZone(o.status.network));
    }
  }

  /**
   * The reason of every verdict, from the class and the catalog: what a narrowing
   * is, which of three causes an empty scope has, and that each of the other
   * reasons is given exactly when it is the first that applies.
   */
  lemma ReasonsExact(o: NodeClass, catalog: Option<seq<ServerType>>)
    requires HasAll(o)
    ensures var v := Judge(o, catalog);
      && (v.reason == DependenciesNotReady <==> !DependenciesHold(o))
      && (v.reason == ImageArchitectureUnsupported <==> DependenciesHold(o) && ForeignImage(o.status.image))
      && (v.reason == CatalogNotFetched <==> DependenciesHold(o) && !ForeignImage(o.status.image) && catalog.None?)
      && (v.reason == CatalogEmpty <==>
            && DependenciesHold(o) && !ForeignImage(o.status.image)
            && catalog.Some? && forall name :: !Sold(catalog.value, name))
      && (DependenciesHold(o) && !ForeignImage(o.status.image) && CatalogKnown(catalog) ==> ScopeReason(o, catalog.value, v))
  {
    HeldBackExact(o);
    if catalog.Some? {
      var sts, allowed, zone := catalog.value, o.spec.locations, NetworkZone(o.status.network);
      ScopeExact(sts, allowed, zone);
      DroppedExact(sts, allowed, zone);
      NothingSold(sts);
      if ZonesOf(sts) != map[] {
        NeverNoLocationsAvailable(sts, allowed, zone);
      }
    }
  }

  lemma NothingSold(sts: seq<ServerType>)
    ensures ZonesOf(sts) == map[] <==> forall name :: !Sold(sts, name)
  {
    forall name ensures name in ZonesOf(sts) <==> Sold(sts, name) {
      ZonesExact(sts, name);
    }
    if forall name :: !Sold(sts, name) {
      assert forall name :: name !in ZonesOf(sts);
    }
  }
}
