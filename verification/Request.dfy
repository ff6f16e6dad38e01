/** The candidate-independent part of a server order (internal/providers/instance/request.go). */
module Request {
  import opened Common
  import opened NodeClassTypes
  import opened Servers

  datatype CreateRequest = CreateRequest(
    name: string, serverType: string, location: string, imageId: int,
    sshKeyIds: seq<int>, networkIds: seq<int>, firewallIds: seq<int>, placementGroupId: Option<int>,
    userData: string, labels: map<string, string>, publicIPv4: bool, publicIPv6: bool)

  datatype RequestError = NoResolvedImage | NoClusterNameToStamp

  const PROTECTED_LABELS := {LABEL_MANAGED_BY, LABEL_NODE_CLAIM}

  function FirewallIds(fws: seq<FirewallStatus>): seq<int>
  {
    seq(|fws|, i requires 0 <= i < |fws| => fws[i].id)
  }

  function SSHKeyIds(keys: seq<SSHKeyStatus>): seq<int>
  {
    seq(|keys|, i requires 0 <= i < |keys| => keys[i].id)
  }

  /** Provider labels, the pool's if it has a name, then the operator's minus the protected keys. */
  function OrderLabels(cluster: string, claim: string, pool: string, extra: map<string, string>): map<string, string>
  {
    var stamped := map[LABEL_MANAGED_BY := cluster, LABEL_NODE_CLAIM := claim];
    (if pool != "" then stamped[LABEL_NODE_POOL := pool] else stamped) + (extra - PROTECTED_LABELS)
  }

  predicate Orderable(cluster: string, status: Status)
  {
    status.image.Some? && status.image.value.id != 0 && cluster != ""
  }

  function RequestFor(cluster: string, claim: string, pool: string, spec: Spec, status: Status, userData: string): CreateRequest
    requires Orderable(cluster, status)
  {
    CreateRequest(
      claim, "", "", status.image.value.id,
      SSHKeyIds(status.sshKeys),
      if status.network.Some? && status.network.value.id != 0 then [status.network.value.id] else [],
      FirewallIds(status.firewalls),
      if status.placementGroup.Some? && status.placementGroup.value.id != 0 then Some(status.placementGroup.value.id) else None,
      userData, OrderLabels(cluster, claim, pool, spec.serverLabels), spec.publicIPv4, spec.publicIPv6)
  }

  /** The operator-label loop: map iteration order is unspecified in Go, and so is the choice of key here. */
  method ApplyLabels(stamped: map<string, string>, extra: map<string, string>, protected: set<string>)
    returns (labels: map<string, string>)
    ensures labels == stamped + (extra - protected)
  {
    labels := stamped;
    var todo := extra.Keys;
    while todo != {}
      invariant todo <= extra.Keys
      invariant labels.Keys == stamped.Keys + (extra.Keys - todo - protected)
      invariant forall k | k in labels ::
        labels[k] == if k in extra && k !in todo && k !in protected then extra[k] else stamped[k]
      decreases |todo|
    {
      var k :| k in todo;
      todo := todo - {k};
      if k in protected {
        continue;
      }
      labels := labels[k := extra[k]];
    }
  }

  method CollectFirewallIds(fws: seq<FirewallStatus>) returns (ids: seq<int>)
    ensures ids == FirewallIds(fws)
  {
    ids := [];
    for i := 0 to |fws|
      invariant ids == FirewallIds(fws[..i])
    {
      ids := ids + [fws[i].id];
    }
    assert fws[..|fws|] == fws;
  }

  method CollectSSHKeyIds(keys: seq<SSHKeyStatus>) returns (ids: seq<int>)
    ensures ids == SSHKeyIds(keys)
  {
    ids := [];
    for i := 0 to |keys|
      invariant ids == SSHKeyIds(keys[..i])
    {
      ids := ids + [keys[i].id];
    }
    assert keys[..|keys|] == keys;
  }

  /** The order asks for what the class resolved to, id by id, and for nothing else. */
  ghost predicate OrdersWhatResolved(spec: Spec, status: Status, req: CreateRequest)
  {
    && status.image.Some? && req.imageId == status.image.value.id
    && |req.sshKeyIds| == |status.sshKeys|
    && (forall i | 0 <= i < |status.sshKeys| :: req.sshKeyIds[i] == status.sshKeys[i].id)
    && |req.firewallIds| == |status.firewalls|
    && (forall i | 0 <= i < |status.firewalls| :: req.firewallIds[i] == status.firewalls[i].id)
    && (forall id :: id in req.networkIds <==> status.network.Some? && status.network.value.id == id && id != 0)
    && (forall id :: req.placementGroupId == Some(id) <==>
          status.placementGroup.Some? && status.placementGroup.value.id == id && id != 0)
    && req.publicIPv4 == spec.publicIPv4 && req.publicIPv6 == spec.publicIPv6
  }

  /** baseRequest: fills the label map and the id slices in loops, from status alone. */
  method BaseRequest(cluster: string, claim: string, pool: string, spec: Spec, status: Status, userData: string)
    returns (r: Result<CreateRequest, RequestError>)
    ensures r == Err(NoResolvedImage) <==> status.image.None? || status.image.value.id == 0
    ensures r == Err(NoClusterNameToStamp) <==> status.image.Some? && status.image.value.id != 0 && cluster == ""
    ensures r.Ok? ==> OrdersWhatResolved(spec, status, r.value) && r.value.name == claim && r.value.userData == userData
    ensures r.Ok? <==> Orderable(cluster, status)
    ensures r.Ok? ==> r.value == RequestFor(cluster, claim, pool, spec, status, userData)
  {
    if status.image.None? || status.image.value.id == 0 {
      return Err(NoResolvedImage);
    }
    if cluster == "" {
      return Err(NoClusterNameToStamp);
    }
    var labels := map[LABEL_MANAGED_BY := cluster, LABEL_NODE_CLAIM := claim];
    if pool != "" {
      labels := labels[LABEL_NODE_POOL := pool];
    }
    var networkIds := [];
    if status.network.Some? && status.network.value.id != 0 {
      networkIds := [status.network.value.id];
    }
    var firewallIds := CollectFirewallIds(status.firewalls);
    var sshKeyIds := CollectSSHKeyIds(status.sshKeys);
    var group: Option<int> := None;
    if status.placementGroup.Some? && status.placementGroup.value.id != 0 {
      group := Some(status.placementGroup.value.id);
    }
    labels := ApplyLabels(labels, spec.serverLabels, PROTECTED_LABELS);
    return Ok(CreateRequest(claim, "", "", status.image.value.id, sshKeyIds, networkIds, firewallIds, group,
                            userData, labels, spec.publicIPv4, spec.publicIPv6));
  }

  /** Operator labels cannot change who owns the server or which claim it is for; every other one is applied, over the pool's. */
  lemma OperatorLabelsCannotDisown(cluster: string, claim: string, pool: string, extra: map<string, string>)
    ensures var labels := OrderLabels(cluster, claim, pool, extra);
      && labels[LABEL_MANAGED_BY] == cluster && labels[LABEL_NODE_CLAIM] == claim
      && (forall k | k in extra && k !in PROTECTED_LABELS :: labels[k] == extra[k])
      && (LABEL_NODE_POOL !in extra ==> (LABEL_NODE_POOL in labels <==> pool != ""))
      && (LABEL_NODE_POOL !in extra && pool != "" ==> labels[LABEL_NODE_POOL] == pool)
      && labels.Keys <= extra.Keys + {LABEL_MANAGED_BY, LABEL_NODE_CLAIM, LABEL_NODE_POOL}
  {
    var labels := OrderLabels(cluster, claim, pool, extra);
    assert LABEL_NODE_POOL != LABEL_MANAGED_BY && LABEL_NODE_POOL != LABEL_NODE_CLAIM;
    assert |LABEL_MANAGED_BY| != |LABEL_NODE_CLAIM|;
  }
}
