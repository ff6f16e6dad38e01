/**
 * Hetzner servers, who owns them, and the provider's read and delete calls
 * (internal/hcloudapi/labels.go, servers.go and internal/providers/instance/list.go).
 */
module Servers {
  import opened Common

  const LABEL_MANAGED_BY := "karpenter.sh/managed-by"
  const LABEL_NODE_POOL := "karpenter.sh/nodepool"
  const LABEL_NODE_CLAIM := "karpenter.itsh.dev/nodeclaim"
  const PROVIDER_ID_PREFIX := "hcloud://"
  const MAX_INT64 := 0x7fff_ffff_ffff_ffff

  datatype Server = Server(
    id: int, name: string, serverType: string, location: string, status: string,
    labels: map<string, string>, imageId: int, created: Option<int>,
    networkIds: seq<int>, firewallIds: seq<int>, placementGroupId: int,
    hasPublicIPv4: bool, hasPublicIPv6: bool)

  /** A Go map read: an absent key is the empty string. */
  function Label(labels: map<string, string>, key: string): string
  {
    if key in labels then labels[key] else ""
  }

  /** IsManagedBy, on a pointer that may be nil; fails closed. */
  predicate IsManagedBy(srv: Option<Server>, cluster: string)
  {
    && srv.Some? && srv.value.labels != map[] && cluster != ""
    && Label(srv.value.labels, LABEL_MANAGED_BY) == cluster
  }

  predicate Ours(srv: Server, cluster: string)
  {
    IsManagedBy(Some(srv), cluster)
  }

  /** The server carries the ownership label with this cluster's name, and the cluster has one. */
  ghost predicate Carries(srv: Server, cluster: string)
  {
    cluster != "" && LABEL_MANAGED_BY in srv.labels && srv.labels[LABEL_MANAGED_BY] == cluster
  }

  /** Ownership is that label and nothing else; an absent label, or no cluster name, owns nothing. */
  lemma OursIff(srv: Server, cluster: string)
    ensures Ours(srv, cluster) <==> Carries(srv, cluster)
  {
  }

  // ---------------------------------------------------------------- provider ids

  function ProviderID(id: nat): string
  {
    PROVIDER_ID_PREFIX + Decimal(id)
  }

  predicate AllDigits(s: string)
  {
    forall i | 0 <= i < |s| :: '0' <= s[i] <= '9'
  }

  function DigitsValue(s: string): nat
    requires AllDigits(s)
  {
    if s == "" then 0
    else DigitsValue(s[..|s| - 1]) * 10 + (s[|s| - 1] as int - '0' as int)
  }

  /** strconv.ParseInt(s, 10, 64): an optional sign, then digits, in range. */
  function ParseInt64(s: string): Option<int>
  {
    var body := if s != "" && (s[0] == '+' || s[0] == '-') then s[1..] else s;
    if body == "" || !AllDigits(body) then None
    else
      var v: int := DigitsValue(body);
      if s[0] == '-' then (if v <= MAX_INT64 + 1 then Some(-v) else None)
      else if v <= MAX_INT64 then Some(v) else None
  }

  function ServerIDFromProviderID(providerID: string): (r: Option<int>)
    ensures r.Some? ==> 0 < r.value <= MAX_INT64
  {
    if |providerID| < |PROVIDER_ID_PREFIX| || providerID[..|PROVIDER_ID_PREFIX|] != PROVIDER_ID_PREFIX then None
    else
      var id := ParseInt64(providerID[|PROVIDER_ID_PREFIX|..]);
      if id.None? || id.value <= 0 then None else id
  }

  lemma {:induction false} DecimalValue(n: nat)
    ensures AllDigits(Decimal(n)) && DigitsValue(Decimal(n)) == n
  {
    var s := Decimal(n);
    if n < 10 {
      assert s[..0] == "";
    } else {
      DecimalValue(n / 10);
      assert s[..|s| - 1] == Decimal(n / 10);
    }
  }

  /** A server's own provider id names that server again. */
  lemma ProviderIDRoundTrip(id: nat)
    requires 0 < id <= MAX_INT64
    ensures ServerIDFromProviderID(ProviderID(id)) == Some(id)
  {
    DecimalValue(id);
    var rest := ProviderID(id)[|PROVIDER_ID_PREFIX|..];
    assert rest == Decimal(id);
    assert ProviderID(id)[..|PROVIDER_ID_PREFIX|] == PROVIDER_ID_PREFIX;
    assert rest[0] in rest;
  }

  /** And nothing else parses: the prefix, then digits of that value and no more, a plus sign at most before them. */
  lemma ParsedProviderID(providerID: string) returns (digits: string)
    requires ServerIDFromProviderID(providerID).Some?
    ensures AllDigits(digits) && digits != "" && DigitsValue(digits) == ServerIDFromProviderID(providerID).value
    ensures providerID in {PROVIDER_ID_PREFIX + digits, PROVIDER_ID_PREFIX + "+" + digits}
  {
    var rest := providerID[|PROVIDER_ID_PREFIX|..];
    assert providerID == PROVIDER_ID_PREFIX + rest;
    digits := if rest[0] == '+' then rest[1..] else rest;
    if rest[0] == '+' {
      assert rest == "+" + digits;
      assert providerID == PROVIDER_ID_PREFIX + "+" + digits;
    }
  }

  // ---------------------------------------------------------------- List and Get

  datatype Failure = NoClusterName | BadProviderID | Upstream(text: string) | ServerGone | NotOurs(id: int)

  ghost function OwnedOnly(servers: seq<Option<Server>>, cluster: string): seq<Server>
  {
    if servers == [] then []
    else
      var rest := OwnedOnly(servers[..|servers| - 1], cluster);
      var last := servers[|servers| - 1];
      if IsManagedBy(last, cluster) then rest + [last.value] else rest
  }

  /** Provider.List: the owned servers of the listing, in order; a failed listing is an error. */
  method List(cluster: string, listing: Result<seq<Option<Server>>, Failure>)
    returns (r: Result<seq<Server>, Failure>)
    ensures cluster == "" ==> r == Err(NoClusterName)
    ensures cluster != "" && listing.Err? ==> r == Err(listing.error)
    ensures cluster != "" && listing.Ok? ==> r == Ok(OwnedOnly(listing.value, cluster))
  {
    if cluster == "" {
      return Err(NoClusterName);
    }
    if listing.Err? {
      return Err(listing.error);
    }
    var servers := listing.value;
    var owned := [];
    for i := 0 to |servers|
      invariant owned == OwnedOnly(servers[..i], cluster)
    {
      assert servers[..i + 1][..i] == servers[..i];
      if IsManagedBy(servers[i], cluster) {
        owned := owned + [servers[i].value];
      }
    }
    assert servers[..|servers|] == servers;
    return Ok(owned);
  }

  /** List shows every server of the listing that carries our label, as often as the listing does, and no other. */
  lemma {:induction false} OwnedOnlyExact(servers: seq<Option<Server>>, cluster: string, srv: Server)
    ensures srv in OwnedOnly(servers, cluster) <==> Some(srv) in servers && Carries(srv, cluster)
    ensures multiset(OwnedOnly(servers, cluster))[srv] == if Carries(srv, cluster) then multiset(servers)[Some(srv)] else 0
  {
    if servers != [] {
      var init := servers[..|servers| - 1];
      OwnedOnlyExact(init, cluster, srv);
      assert servers == init + [servers[|servers| - 1]];
    }
  }

  /** Entry `i` is the listing's first with this id. */
  ghost predicate ListedFirst(servers: seq<Option<Server>>, id: int, i: int)
    requires 0 <= i < |servers|
  {
    && servers[i].Some? && servers[i].value.id == id
    && forall j | 0 <= j < i && servers[j].Some? :: servers[j].value.id != id
  }

  ghost predicate NotListed(servers: seq<Option<Server>>, id: int)
  {
    forall j | 0 <= j < |servers| && servers[j].Some? :: servers[j].value.id != id
  }

  predicate Matches(s: Option<Server>, id: int)
  {
    s.Some? && s.value.id == id
  }

  /**
   * Provider.Get, given what the shared listing and, should it be made, the
   * point read answer. A miss falls through to the point read; a failed
   * listing or read is an error and never "gone".
   */
  method Get(cluster: string, providerID: string,
             listing: Result<seq<Option<Server>>, Failure>, point: Result<Option<Server>, Failure>)
    returns (r: Result<Option<Server>, Failure>)
    ensures cluster == "" ==> r == Err(NoClusterName)
    ensures cluster != "" && ServerIDFromProviderID(providerID).None? ==> r == Err(BadProviderID)
    ensures cluster != "" && ServerIDFromProviderID(providerID).Some? && listing.Ok? ==>
      var id := ServerIDFromProviderID(providerID).value;
      && (forall i | 0 <= i < |listing.value| && ListedFirst(listing.value, id, i) ::
            r == Ok(if Carries(listing.value[i].value, cluster) then listing.value[i] else None))
      && (NotListed(listing.value, id) ==>
            if point.Err? then r == Err(point.error)
            else r == Ok(if point.value.Some? && Carries(point.value.value, cluster) then point.value else None))
    ensures cluster != "" && ServerIDFromProviderID(providerID).Some? ==>
      && (listing.Err? ==> r == Err(listing.error))
      && (listing.Ok? ==> r == GetAnswer(cluster, ServerIDFromProviderID(providerID).value, listing.value, point))
  {
    if cluster == "" {
      return Err(NoClusterName);
    }
    var id := ServerIDFromProviderID(providerID);
    if id.None? {
      return Err(BadProviderID);
    }
    if listing.Err? {
      return Err(listing.error);
    }
    var servers := listing.value;
    var srv: Option<Server> := None;
    var i := 0;
    while i < |servers|
      invariant i <= |servers| && srv.None?
      invariant forall j | 0 <= j < i :: !Matches(servers[j], id.value)
    {
      if Matches(servers[i], id.value) {
        srv := servers[i];
        break;
      }
      i := i + 1;
    }
    FirstMatchIs(servers, id.value, i);
    if srv.None? {
      if point.Err? {
        return Err(point.error);
      }
      srv := point.value;
    }
    if srv.None? || !IsManagedBy(srv, cluster) {
      return Ok(None);
    }
    return Ok(srv);
  }

  ghost function FirstMatch(servers: seq<Option<Server>>, id: int): (i: nat)
    ensures i <= |servers|
    ensures forall j | 0 <= j < i :: !Matches(servers[j], id)
    ensures i < |servers| ==> Matches(servers[i], id)
  {
    if servers == [] || Matches(servers[0], id) then 0 else 1 + FirstMatch(servers[1..], id)
  }

  lemma FirstMatchIs(servers: seq<Option<Server>>, id: int, i: nat)
    requires i <= |servers| && (forall j | 0 <= j < i :: !Matches(servers[j], id))
    requires i < |servers| ==> Matches(servers[i], id)
    ensures FirstMatch(servers, id) == i
  {
  }

  ghost function GetAnswer(cluster: string, id: int, servers: seq<Option<Server>>,
                           point: Result<Option<Server>, Failure>): Result<Option<Server>, Failure>
  {
    var i := FirstMatch(servers, id);
    if i == |servers| && point.Err? then Err(point.error)
    else
      var srv := if i < |servers| then servers[i] else point.value;
      if IsManagedBy(srv, cluster) then Ok(srv) else Ok(None)
  }

  // ---------------------------------------------------------------- Get against the live project

  /** The project's servers at each instant. */
  type Project = int -> map<int, Server>

  /** `servers` is what a listing taken at `at` shows: every entry as it was then. */
  ghost predicate ShowsProject(project: Project, at: int, servers: seq<Option<Server>>)
  {
    forall i | 0 <= i < |servers| && servers[i].Some? ::
      servers[i].value.id in project(at) && project(at)[servers[i].value.id] == servers[i].value
  }

  ghost predicate PointShows(project: Project, at: int, id: int, point: Result<Option<Server>, Failure>)
  {
    point.Ok? ==> point.value == if id in project(at) then Some(project(at)[id]) else None
  }

  /**
   * For a server that carries our label whenever it exists and is alive for
   * the whole call, Get never answers "gone", however old the listing is; and
   * whatever Get does return is ours and is the server asked for.
   */
  lemma {:induction false} GetNeverHidesLive(project: Project, cluster: string, id: int, start: int, finish: int,
                          listedAt: int, servers: seq<Option<Server>>,
                          readAt: int, point: Result<Option<Server>, Failure>)
    requires cluster != ""
    requires forall t | start <= t <= finish :: id in project(t)
    requires forall t | id in project(t) :: Ours(project(t)[id], cluster) && project(t)[id].id == id
    requires start <= readAt <= finish && ShowsProject(project, listedAt, servers)
    requires PointShows(project, readAt, id, point)
    ensures var r := GetAnswer(cluster, id, servers, point);
      r.Err? || (r.value.Some? && r.value.value.id == id && Carries(r.value.value, cluster))
    ensures point.Ok? ==> GetAnswer(cluster, id, servers, point).Ok?
  {
    var i := FirstMatch(servers, id);
    if i < |servers| {
      assert servers[i].value == project(listedAt)[id];
    }
  }

  /** Nothing that is not ours ever leaves Get, whatever upstream answers. */
  lemma {:induction false} GetOnlyOurs(cluster: string, id: int, servers: seq<Option<Server>>, point: Result<Option<Server>, Failure>)
    requires PointNames(point, id)
    ensures var r := GetAnswer(cluster, id, servers, point);
      r.Ok? && r.value.Some? ==> Carries(r.value.value, cluster) && r.value.value.id == id
  {
    var i := FirstMatch(servers, id);
  }

  ghost predicate PointNames(point: Result<Option<Server>, Failure>, id: int)
  {
    point.Ok? && point.value.Some? ==> point.value.value.id == id
  }

  // ---------------------------------------------------------------- Delete

  /** What one Delete call did: the server it ordered deleted, and what it told its caller. */
  datatype DeleteEffect = DeleteEffect(sent: Option<int>, invalidated: bool, error: Option<Failure>)

  /** Provider.Delete, given the live read and the outcome of the API delete should it be reached. */
  method Delete(cluster: string, providerID: string, read: Result<Option<Server>, Failure>, outcome: Option<Failure>)
    returns (e: DeleteEffect)
    ensures e.sent.Some? <==>
      && ServerIDFromProviderID(providerID).Some?
      && read.Ok? && read.value.Some? && Carries(read.value.value, cluster)
    ensures e.sent.Some? ==> e.sent == ServerIDFromProviderID(providerID) && e.error == outcome
    ensures e.invalidated <==> e.error.None?
    ensures e.sent.None? ==> e.error == Some(
      if ServerIDFromProviderID(providerID).None? then BadProviderID
      else if read.Err? then read.error
      else if read.value.None? then ServerGone
      else NotOurs(read.value.value.id))
  {
    var id := ServerIDFromProviderID(providerID);
    if id.None? {
      return DeleteEffect(None, false, Some(BadProviderID));
    }
    if read.Err? {
      return DeleteEffect(None, false, Some(read.error));
    }
    if read.value.None? {
      return DeleteEffect(None, false, Some(ServerGone));
    }
    if !IsManagedBy(read.value, cluster) {
      return DeleteEffect(None, false, Some(NotOurs(read.value.value.id)));
    }
    if outcome.Some? {
      return DeleteEffect(id, false, outcome);
    }
    return DeleteEffect(id, true, None);
  }
}
