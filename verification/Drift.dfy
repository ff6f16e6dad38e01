/** Comparing a running server with what its NodeClass resolves to (internal/cloudprovider/drift.go). */
module Drift {
  import opened Common
  import opened Sorting
  import opened NodeClassTypes
  import opened Servers
  import opened Request
  import HashUpgrade

  datatype Reason =
    | NodeClassDrift | NodeAgeDrift
    | LocationDrift | NetworkDrift | FirewallDrift | PlacementGroupDrift | PublicNetDrift | ImageDrift

  // ---------------------------------------------------------------- sameSet

  predicate IntLe(a: int, b: int)
  {
    a <= b
  }

  /** slices.Compact: drops consecutive repeats. */
  function Compact(s: seq<int>): seq<int>
  {
    if |s| < 2 then s
    else if s[0] == s[1] then Compact(s[1..])
    else [s[0]] + Compact(s[1..])
  }

  predicate SameSet(a: seq<int>, b: seq<int>)
  {
    Compact(Sort(a, IntLe)) == Compact(Sort(b, IntLe))
  }

  ghost predicate Increasing(s: seq<int>)
  {
    forall i, j | 0 <= i < j < |s| :: s[i] < s[j]
  }

  lemma {:induction false} CompactIncreasing(s: seq<int>)
    requires Sorted(s, IntLe)
    ensures Increasing(Compact(s)) && Members(Compact(s)) == Members(s)
    ensures s != [] ==> Compact(s) != [] && Compact(s)[0] == s[0]
  {
    if |s| >= 2 {
      CompactIncreasing(s[1..]);
      assert s == [s[0]] + s[1..];
      assert IntLe(s[0], s[1]);
      var c := Compact(s[1..]);
      forall x | x in Members(c) ensures s[1] <= x {
        assert x in s[1..];
        var i :| 0 <= i < |s[1..]| && s[1..][i] == x;
        assert i == 0 || IntLe(s[1..][0], s[1..][i]);
      }
      forall i | 0 <= i < |c| ensures s[1] <= c[i] {
        assert c[i] in Members(c);
      }
      assert Members(s) == {s[0]} + Members(s[1..]);
      assert Members([s[0]] + c) == {s[0]} + Members(c);
    }
  }

  lemma HeadMember(s: seq<int>)
    ensures s != [] ==> s[0] in Members(s)
  {
  }

  lemma IncreasingHead(s: seq<int>, x: int)
    requires Increasing(s) && x in s
    ensures s[0] <= x
  {
  }

  lemma IncreasingTail(s: seq<int>)
    requires Increasing(s) && s != []
    ensures Increasing(s[1..]) && Members(s[1..]) == Members(s) - {s[0]}
  {
    assert s == [s[0]] + s[1..];
    forall x | x in s[1..] ensures x != s[0] {
      var i :| 0 <= i < |s[1..]| && s[1..][i] == x;
      assert s[0] < s[i + 1];
    }
  }

  lemma {:induction false} IncreasingUnique(a: seq<int>, b: seq<int>)
    requires Increasing(a) && Increasing(b) && Members(a) == Members(b)
    ensures a == b
  {
    if a == [] {
      HeadMember(b);
    } else {
      assert a[0] in Members(b);
      assert b[0] in Members(a);
      IncreasingHead(b, a[0]);
      IncreasingHead(a, b[0]);
      IncreasingTail(a);
      IncreasingTail(b);
      IncreasingUnique(a[1..], b[1..]);
      assert a == [a[0]] + a[1..] && b == [b[0]] + b[1..];
    }
  }

  lemma SortedInts(a: seq<int>)
    ensures Sorted(Sort(a, IntLe), IntLe) && Members(Sort(a, IntLe)) == Members(a)
  {
    SortCorrect(a, IntLe);
    SortMembers(a, IntLe);
  }

  /** Sort, compact and compare is exactly set equality, for arbitrary lists. */
  lemma SameSetIff(a: seq<int>, b: seq<int>)
    ensures SameSet(a, b) <==> Members(a) == Members(b)
  {
    SortedInts(a);
    SortedInts(b);
    CompactIncreasing(Sort(a, IntLe));
    CompactIncreasing(Sort(b, IntLe));
    if Members(a) == Members(b) {
      IncreasingUnique(Compact(Sort(a, IntLe)), Compact(Sort(b, IntLe)));
    }
  }

  // ---------------------------------------------------------------- serverDrift

  /** Location is compared only when the operator wrote the list down and something is published. */
  predicate LocationLeft(spec: Spec, status: Status, location: string)
  {
    && spec.locations != [] && status.locations != [] && location != ""
    && forall i | 0 <= i < |status.locations| :: status.locations[i].name != location
  }

  predicate NetworkLeft(status: Status, srv: Server)
  {
    match status.network
    case None => srv.networkIds != []
    case Some(net) => net.id != 0 && net.id !in srv.networkIds
  }

  function WantedGroup(status: Status): int
  {
    if status.placementGroup.Some? then status.placementGroup.value.id else 0
  }

  predicate ImageLeft(spec: Spec, status: Status, srv: Server)
  {
    && spec.replaceOnImageDrift && status.image.Some?
    && status.image.value.id != 0 && srv.imageId != 0 && status.image.value.id != srv.imageId
  }

  /** serverDrift: the first reason, in the order the checks are made. */
  method ServerDrift(spec: Spec, status: Status, srv: Server) returns (r: Option<Reason>)
    ensures r == DriftReason(spec, status, srv)
  {
    SameSetIff(FirewallIds(status.firewalls), srv.firewallIds);
    if LocationLeft(spec, status, srv.location) {
      return Some(LocationDrift);
    }
    if NetworkLeft(status, srv) {
      return Some(NetworkDrift);
    }
    var want := [];
    for i := 0 to |status.firewalls|
      invariant want == FirewallIds(status.firewalls[..i])
    {
      want := want + [status.firewalls[i].id];
    }
    assert status.firewalls[..|status.firewalls|] == status.firewalls;
    if !SameSet(want, srv.firewallIds) {
      return Some(FirewallDrift);
    }
    if WantedGroup(status) != srv.placementGroupId {
      return Some(PlacementGroupDrift);
    }
    if spec.publicIPv4 != srv.hasPublicIPv4 || spec.publicIPv6 != srv.hasPublicIPv6 {
      return Some(PublicNetDrift);
    }
    if ImageLeft(spec, status, srv) {
      return Some(ImageDrift);
    }
    return None;
  }

  /** The same verdict over sets of ids: what differs, most significant first. */
  ghost function DriftReason(spec: Spec, status: Status, srv: Server): Option<Reason>
  {
    if LocationLeft(spec, status, srv.location) then Some(LocationDrift)
    else if NetworkLeft(status, srv) then Some(NetworkDrift)
    else if Members(FirewallIds(status.firewalls)) != Members(srv.firewallIds) then Some(FirewallDrift)
    else if WantedGroup(status) != srv.placementGroupId then Some(PlacementGroupDrift)
    else if spec.publicIPv4 != srv.hasPublicIPv4 || spec.publicIPv6 != srv.hasPublicIPv6 then Some(PublicNetDrift)
    else if ImageLeft(spec, status, srv) then Some(ImageDrift)
    else None
  }

  /** What serverDrift compares, in the order of its checks. */
  const COMPARED := [LocationDrift, NetworkDrift, FirewallDrift, PlacementGroupDrift, PublicNetDrift, ImageDrift]

  ghost predicate HasId(fws: seq<FirewallStatus>, id: int)
  {
    exists i :: 0 <= i < |fws| && fws[i].id == id
  }

  ghost predicate HasName(locs: seq<LocationStatus>, name: string)
  {
    exists i :: 0 <= i < |locs| && locs[i].name == name
  }

  /** The server is as the class resolved it, in the respect `r` names. What is unknown on either side is not held against it. */
  ghost predicate Matches(spec: Spec, status: Status, srv: Server, r: Reason)
  {
    match r
    case LocationDrift =>
      spec.locations != [] && status.locations != [] && srv.location != "" ==> HasName(status.locations, srv.location)
    case NetworkDrift =>
      && (status.network.None? ==> srv.networkIds == [])
      && (status.network.Some? && status.network.value.id != 0 ==> status.network.value.id in srv.networkIds)
    case FirewallDrift => forall id :: id in srv.firewallIds <==> HasId(status.firewalls, id)
    case PlacementGroupDrift =>
      && (status.placementGroup.None? ==> srv.placementGroupId == 0)
      && (status.placementGroup.Some? ==> srv.placementGroupId == status.placementGroup.value.id)
    case PublicNetDrift => srv.hasPublicIPv4 == spec.publicIPv4 && srv.hasPublicIPv6 == spec.publicIPv6
    case ImageDrift =>
      spec.replaceOnImageDrift && status.image.Some? && status.image.value.id != 0 && srv.imageId != 0
      ==> srv.imageId == status.image.value.id
    case _ => true
  }

  lemma FirewallSets(fws: seq<FirewallStatus>, ids: seq<int>)
    ensures Members(FirewallIds(fws)) == Members(ids) <==> forall id :: id in ids <==> HasId(fws, id)
  {
    forall id ensures id in Members(FirewallIds(fws)) <==> HasId(fws, id) {
      if HasId(fws, id) {
        var i :| 0 <= i < |fws| && fws[i].id == id;
        assert FirewallIds(fws)[i] == id;
      }
    }
    if forall id :: id in ids <==> HasId(fws, id) {
      assert forall id :: id in Members(FirewallIds(fws)) <==> id in Members(ids);
    }
    if Members(FirewallIds(fws)) == Members(ids) {
      forall id ensures id in ids <==> HasId(fws, id) {
        assert id in ids <==> id in Members(ids);
      }
    }
  }

  /**
   * A server drifts exactly when it differs from what the class resolved to in
   * some respect, and the reason is the first respect in which it does: none is
   * missed, and none is reported that matches.
   */
  lemma DriftExact(spec: Spec, status: Status, srv: Server, k: nat)
    requires k < |COMPARED|
    ensures DriftReason(spec, status, srv).None? <==> forall i | 0 <= i < |COMPARED| :: Matches(spec, status, srv, COMPARED[i])
    ensures DriftReason(spec, status, srv) == Some(COMPARED[k]) <==>
      !Matches(spec, status, srv, COMPARED[k]) && forall i | 0 <= i < k :: Matches(spec, status, srv, COMPARED[i])
  {
    FirewallSets(status.firewalls, srv.firewallIds);
    assert LocationLeft(spec, status, srv.location) <==> !Matches(spec, status, srv, COMPARED[0]);
    assert NetworkLeft(status, srv) <==> !Matches(spec, status, srv, COMPARED[1]);
    assert WantedGroup(status) != srv.placementGroupId <==> !Matches(spec, status, srv, COMPARED[3]);
    assert ImageLeft(spec, status, srv) <==> !Matches(spec, status, srv, COMPARED[5]);
    assert COMPARED[2] == FirewallDrift && COMPARED[4] == PublicNetDrift;
  }

  /** In particular, a server that differs in one respect alone is reported for that one. */
  lemma OnlyDifferenceReported(spec: Spec, status: Status, srv: Server, k: nat)
    requires k < |COMPARED| && !Matches(spec, status, srv, COMPARED[k])
    requires forall i | 0 <= i < |COMPARED| && i != k :: Matches(spec, status, srv, COMPARED[i])
    ensures DriftReason(spec, status, srv) == Some(COMPARED[k])
  {
    DriftExact(spec, status, srv, k);
  }

  // ---------------------------------------------------------------- launch, then drift

  /** `srv` is what Hetzner reports of a server ordered by `req`: lists may come back reordered or deduplicated. */
  ghost predicate ReadBack(req: CreateRequest, srv: Server)
  {
    && srv.location == req.location && srv.serverType == req.serverType && srv.imageId == req.imageId
    && Members(srv.networkIds) == Members(req.networkIds)
    && Members(srv.firewallIds) == Members(req.firewallIds)
    && srv.placementGroupId == (if req.placementGroupId.Some? then req.placementGroupId.value else 0)
    && srv.hasPublicIPv4 == req.publicIPv4 && srv.hasPublicIPv6 == req.publicIPv6
  }

  /**
   * Launch and drift agree on every class baseRequest accepts: the server it
   * orders, read back, drifts against that same class exactly when its location
   * has left a written-down spec.locations, and then only for that.
   */
  lemma LaunchThenDrift(cluster: string, claim: string, pool: string, userData: string,
                        spec: Spec, status: Status, serverType: string, location: string, srv: Server)
    requires Orderable(cluster, status)
    requires ReadBack(RequestFor(cluster, claim, pool, spec, status, userData).(serverType := serverType, location := location), srv)
    ensures DriftReason(spec, status, srv) ==
      if LocationLeft(spec, status, location) then Some(LocationDrift) else None
    ensures spec.locations == [] || (exists l :: l in status.locations && l.name == location)
      ==> DriftReason(spec, status, srv).None?
  {
    var req := RequestFor(cluster, claim, pool, spec, status, userData);
    assert forall x :: x in srv.networkIds <==> x in Members(srv.networkIds);
    assert forall x :: x in req.networkIds <==> x in Members(req.networkIds);
    if srv.networkIds != [] {
      assert srv.networkIds[0] in Members(srv.networkIds);
    }
    if l :| l in status.locations && l.name == location {
      var i :| 0 <= i < |status.locations| && status.locations[i] == l;
    }
  }

  // ---------------------------------------------------------------- IsDrifted

  datatype Verdict = NoDrift | Drifted(reason: Reason) | Unjudged

  /**
   * What IsDrifted reads of a NodeClaim and its class. Times are instants;
   * `created` None is the zero time. The stamps carry the hash annotations, and
   * a claim has launched once it has a provider id.
   */
  datatype ClaimView = ClaimView(stamp: HashUpgrade.Claim, created: Option<int>)
  datatype ClassView = ClassView(
    stamp: HashUpgrade.Class, spec: Spec, status: Status, terminating: bool, ready: bool, maxNodeAge: Option<int>)

  /** nodeAgeDrift: strictly older than maxNodeAge, and never on a zero timestamp. */
  predicate TooOld(now: int, cls: ClassView, claim: ClaimView)
  {
    cls.maxNodeAge.Some? && claim.created.Some? && now - claim.created.value > cls.maxNodeAge.value
  }

  /** nodeClassHashDrift: the annotation checks, in order. */
  method NodeClassHashDrift(running: nat, cls: HashUpgrade.Class, claim: HashUpgrade.Claim) returns (drifted: bool)
    ensures drifted <==> HashUpgrade.HashDrift(running, cls, claim)
    ensures drifted <==>
      && cls.version == Some(running) && claim.version == Some(running)
      && cls.hash.Some? && claim.hash.Some? && cls.hash.value != claim.hash.value
  {
    if cls.version != Some(running) || claim.version != Some(running) {
      return false;
    }
    if cls.hash.None? {
      return false;
    }
    if claim.hash.None? {
      return false;
    }
    return cls.hash != claim.hash;
  }

  /** The claim has launched and its class can be read, is staying and is ready. */
  predicate Comparable(claim: ClaimView, cls: Option<ClassView>)
  {
    claim.stamp.launched && cls.Some? && !cls.value.terminating && cls.value.ready
  }

  /** Neither of the two checks that need no server decides. */
  predicate NeedsServer(running: nat, now: int, claim: ClaimView, cls: Option<ClassView>)
  {
    && Comparable(claim, cls)
    && !HashUpgrade.HashDrift(running, cls.value.stamp, claim.stamp) && !TooOld(now, cls.value, claim)
  }

  /** IsDrifted: reads in order, declines to judge on anything it cannot read, and gives each reason exactly when it is due. */
  method IsDrifted(running: nat, now: int, claim: ClaimView, cls: Option<ClassView>, server: Result<Option<Server>, Failure>)
    returns (v: Verdict)
    ensures v == Drifted(NodeClassDrift) <==>
      Comparable(claim, cls) && HashUpgrade.HashDrift(running, cls.value.stamp, claim.stamp)
    ensures v == Drifted(NodeAgeDrift) <==>
      && Comparable(claim, cls) && !HashUpgrade.HashDrift(running, cls.value.stamp, claim.stamp)
      && cls.value.maxNodeAge.Some? && claim.created.Some?
      && now > claim.created.value + cls.value.maxNodeAge.value
    ensures forall r | r !in {NodeClassDrift, NodeAgeDrift} :: v == Drifted(r) <==>
      && NeedsServer(running, now, claim, cls) && server.Ok? && server.value.Some?
      && DriftReason(cls.value.spec, cls.value.status, server.value.value) == Some(r)
    ensures v.Unjudged? <==>
      claim.stamp.launched && (cls.None? || (NeedsServer(running, now, claim, cls) && server.Err?))
  {
    if !claim.stamp.launched {
      return NoDrift;
    }
    if cls.None? {
      return Unjudged;
    }
    var c := cls.value;
    if c.terminating || !c.ready {
      return NoDrift;
    }
    var hashDrift := NodeClassHashDrift(running, c.stamp, claim.stamp);
    if hashDrift {
      return Drifted(NodeClassDrift);
    }
    if TooOld(now, c, claim) {
      return Drifted(NodeAgeDrift);
    }
    if server.Err? {
      return Unjudged;
    }
    if server.value.None? {
      return NoDrift;
    }
    var r := ServerDrift(c.spec, c.status, server.value.value);
    if r.Some? {
      return Drifted(r.value);
    }
    return NoDrift;
  }
}
