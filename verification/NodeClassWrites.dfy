/**
 * What a pass writes for each of the six resolvers, from the answers alone:
 * which outcome it is, which field it leaves and what the condition then says
 * (internal/controllers/nodeclass/image.go, network.go, firewall.go, sshkey.go,
 * placementgroup.go, bootstrap.go and resolve.go).
 */
module NodeClassWrites {
  import opened Common
  import opened Errors
  import opened NodeClassTypes
  import opened Conditions
  import opened Resolvers
  import opened Validation
  import opened NodeClassPass

  // ---------------------------------------------------------------- outcomes

  /** Retrying will not help: the resource is missing, the request is bad or the credential is rejected. */
  ghost predicate Permanent(e: Err)
  {
    Missing(e) || (Code(e).Some? && Code(e).value in CONFIG_CODES + CREDENTIAL_CODES)
  }

  lemma PermanentIff(e: Err)
    ensures ConfigFailure(e).Some? <==> Permanent(e)
    ensures ConfigFailure(e) == Some(ReasonNotFound) <==> Missing(e)
  {
    ConfigFailureExact(e);
  }

  /** The join parameters a class ends up with: what the operator wrote, else a complete discovery. */
  function Wanted(spec: Spec, a: Answers): JoinParams
  {
    var complete := a.discovered.endpoint != "" && a.discovered.hashes != [];
    JoinParams(
      if spec.apiServerEndpoint != "" then spec.apiServerEndpoint else if complete then a.discovered.endpoint else "",
      if spec.caCertHashes != [] then spec.caCertHashes else if complete then a.discovered.hashes else [])
  }

  /** cluster-info is read only for what the operator left out. */
  predicate Discovers(spec: Spec)
  {
    spec.apiServerEndpoint == "" || spec.caCertHashes == []
  }

  ghost predicate Succeeds(spec: Spec, a: Answers, t: ConditionType)
  {
    match t
    case ImageReady => a.image.Ok?
    case NetworkReady => spec.network.None? || (a.network.Ok? && a.network.value.zone != "")
    case FirewallsReady => forall i: nat | i < |spec.firewalls| :: a.firewall(i).Ok?
    case SSHKeysReady => forall i: nat | i < |spec.sshKeys| :: a.sshKey(i).Ok? || Missing(a.sshKey(i).error)
    case PlacementGroupReady => spec.placementGroup.None? || a.placementGroup.Ok?
    case BootstrapDiscoveryReady =>
      && (Discovers(spec) ==> a.refresh.RefreshOk?)
      && Wanted(spec, a).endpoint != "" && Wanted(spec, a).hashes != []
      && forall i | 0 <= i < |Wanted(spec, a).hashes| :: ValidHash(Wanted(spec, a).hashes[i])
    case ValidationSucceeded => true
  }

  ghost predicate Blips(spec: Spec, a: Answers, t: ConditionType)
  {
    match t
    case ImageReady => a.image.Err? && !Permanent(a.image.error)
    case NetworkReady => spec.network.Some? && a.network.Err? && !Permanent(a.network.error)
    case FirewallsReady => exists i: nat :: i < |spec.firewalls| && a.firewall(i).Err? && !Permanent(a.firewall(i).error)
    case SSHKeysReady => exists i: nat :: i < |spec.sshKeys| && a.sshKey(i).Err? && !Permanent(a.sshKey(i).error)
    case PlacementGroupReady => spec.placementGroup.Some? && a.placementGroup.Err? && !Permanent(a.placementGroup.error)
    case BootstrapDiscoveryReady => Discovers(spec) && a.refresh.RefreshTransient?
    case ValidationSucceeded => false
  }

  lemma FirewallsOutcome(spec: Spec, a: Answers)
    ensures OutcomeOf(spec, a, FirewallsReady).Success? <==> Succeeds(spec, a, FirewallsReady)
    ensures OutcomeOf(spec, a, FirewallsReady).Transient? <==> Blips(spec, a, FirewallsReady)
  {
    var f, n := FirewallFailures(a.firewall), |spec.firewalls|;
    forall i: nat | i < n && a.firewall(i).Err? ensures ConfigFailure(a.firewall(i).error).Some? <==> Permanent(a.firewall(i).error) {
      PermanentIff(a.firewall(i).error);
    }
    assert forall i: nat | i < n :: FailsAs(f, i, AnyFailure) <==> a.firewall(i).Err?;
    assert forall i: nat | i < n :: FailsAs(f, i, TransientFailure) <==> a.firewall(i).Err? && !Permanent(a.firewall(i).error);
    assert forall i: nat | i < n :: FailsAs(f, i, SevereFailure) ==> FailsAs(f, i, AnyFailure);
  }

  lemma SSHKeysOutcome(spec: Spec, a: Answers)
    ensures OutcomeOf(spec, a, SSHKeysReady).Success? <==> Succeeds(spec, a, SSHKeysReady)
    ensures OutcomeOf(spec, a, SSHKeysReady).Transient? <==> Blips(spec, a, SSHKeysReady)
  {
    var f, n := SSHKeyFailures(a.sshKey), |spec.sshKeys|;
    forall i: nat | i < n && a.sshKey(i).Err?
      ensures ConfigFailure(a.sshKey(i).error).Some? <==> Permanent(a.sshKey(i).error)
      ensures ConfigFailure(a.sshKey(i).error) == Some(ReasonNotFound) <==> Missing(a.sshKey(i).error)
    {
      PermanentIff(a.sshKey(i).error);
    }
    assert forall i: nat | i < n :: FailsAs(f, i, TransientFailure) <==> a.sshKey(i).Err? && !Permanent(a.sshKey(i).error);
    assert forall i: nat | i < n ::
      a.sshKey(i).Ok? || Missing(a.sshKey(i).error) <==> !FailsAs(f, i, TransientFailure) && !FailsAs(f, i, SevereFailure);
  }

  lemma WantedIff(spec: Spec, a: Answers)
    ensures var r := ResolveJoin(a.discovered, Override(spec));
      && (r.Some? <==> Wanted(spec, a).endpoint != "" && Wanted(spec, a).hashes != [])
      && (r.Some? ==> r.value == Wanted(spec, a))
  {
  }

  lemma BootstrapOutcomeExact(spec: Spec, a: Answers)
    ensures OutcomeOf(spec, a, BootstrapDiscoveryReady).Success? <==> Succeeds(spec, a, BootstrapDiscoveryReady)
    ensures OutcomeOf(spec, a, BootstrapDiscoveryReady).Transient? <==> Blips(spec, a, BootstrapDiscoveryReady)
  {
    WantedIff(spec, a);
    NoBadHashes(Wanted(spec, a).hashes);
  }

  /** Success, blip or misconfiguration, for every resolver, from what it was answered. */
  lemma OutcomeExact(spec: Spec, a: Answers, t: ConditionType)
    ensures OutcomeOf(spec, a, t).Success? <==> Succeeds(spec, a, t)
    ensures OutcomeOf(spec, a, t).Transient? <==> Blips(spec, a, t)
    ensures OutcomeOf(spec, a, t).Misconfigured? <==> !Succeeds(spec, a, t) && !Blips(spec, a, t)
  {
    match t
    case ImageReady =>
      if a.image.Err? {
        PermanentIff(a.image.error);
      }
    case NetworkReady =>
      if a.network.Err? {
        PermanentIff(a.network.error);
      }
    case FirewallsReady => FirewallsOutcome(spec, a);
    case SSHKeysReady => SSHKeysOutcome(spec, a);
    case PlacementGroupReady =>
      if a.placementGroup.Err? {
        PermanentIff(a.placementGroup.error);
      }
    case BootstrapDiscoveryReady => BootstrapOutcomeExact(spec, a);
    case ValidationSucceeded =>
  }

  // ---------------------------------------------------------------- fields

  /** Nothing a launch could use is left behind. */
  predicate Cleared(status: Status, t: ConditionType)
  {
    match t
    case ImageReady => status.image.None?
    case NetworkReady => status.network.None?
    case FirewallsReady => status.firewalls == []
    case SSHKeysReady => status.sshKeys == []
    case PlacementGroupReady => status.placementGroup.None?
    case BootstrapDiscoveryReady => status.apiServerEndpoint == "" && status.caCertHashes == []
    case ValidationSucceeded => status.locations == []
  }

  /** The field holds what was answered, and all of it; a key that no longer exists is left out. */
  ghost predicate Answered(spec: Spec, a: Answers, status: Status, t: ConditionType)
  {
    match t
    case ImageReady => a.image.Ok? && status.image == Some(a.image.value)
    case NetworkReady =>
      if spec.network.None? then status.network.None? else a.network.Ok? && status.network == Some(a.network.value)
    case FirewallsReady =>
      && |status.firewalls| == |spec.firewalls|
      && forall i: nat | i < |spec.firewalls| :: a.firewall(i).Ok? && status.firewalls[i] == a.firewall(i).value
    case SSHKeysReady =>
      && (forall k :: k in status.sshKeys <==> KeyAnswered(a, |spec.sshKeys|, k))
      && ((forall i: nat | i < |spec.sshKeys| :: a.sshKey(i).Ok?) ==>
            && |status.sshKeys| == |spec.sshKeys|
            && forall i: nat | i < |spec.sshKeys| :: status.sshKeys[i] == a.sshKey(i).value)
    case PlacementGroupReady =>
      if spec.placementGroup.None? then status.placementGroup.None?
      else a.placementGroup.Ok? && status.placementGroup == Some(a.placementGroup.value)
    case BootstrapDiscoveryReady => status.apiServerEndpoint == Wanted(spec, a).endpoint && status.caCertHashes == Wanted(spec, a).hashes
    case ValidationSucceeded => true
  }

  ghost predicate KeyAnswered(a: Answers, n: nat, k: SSHKeyStatus)
  {
    exists i: nat :: i < n && a.sshKey(i) == Ok(k)
  }

  lemma {:induction false} FirewallsAnswered(answer: nat -> Result<FirewallStatus, Err>, n: nat)
    requires forall i: nat | i < n :: answer(i).Ok?
    ensures |ResolvedFirewalls(answer, n)| == n
    ensures forall i: nat | i < n :: ResolvedFirewalls(answer, n)[i] == answer(i).value
  {
    if n > 0 {
      FirewallsAnswered(answer, n - 1);
    }
  }

  lemma {:induction false} KeysAnswered(a: Answers, n: nat)
    ensures forall k :: k in ResolvedSSHKeys(a.sshKey, n) <==> KeyAnswered(a, n, k)
    ensures (forall i: nat | i < n :: a.sshKey(i).Ok?) ==>
      && |ResolvedSSHKeys(a.sshKey, n)| == n
      && forall i: nat | i < n :: ResolvedSSHKeys(a.sshKey, n)[i] == a.sshKey(i).value
  {
    if n > 0 {
      KeysAnswered(a, n - 1);
      forall k ensures KeyAnswered(a, n, k) <==> KeyAnswered(a, n - 1, k) || a.sshKey(n - 1) == Ok(k) {
        if KeyAnswered(a, n - 1, k) {
          var i: nat :| i < n - 1 && a.sshKey(i) == Ok(k);
          assert i < n;
        }
      }
    }
  }

  lemma FirewallsWritten(at: Stamp, a: Answers, o: NodeClass)
    requires HasAll(o)
    ensures var s := ResolvedStatus(at, a, o);
      && (Succeeds(o.spec, a, FirewallsReady) ==> Answered(o.spec, a, s, FirewallsReady))
      && (Blips(o.spec, a, FirewallsReady) ==> s.firewalls == o.status.firewalls)
      && (!Succeeds(o.spec, a, FirewallsReady) && !Blips(o.spec, a, FirewallsReady) ==> s.firewalls == [])
  {
    var f, n := FirewallFailures(a.firewall), |o.spec.firewalls|;
    OutcomeExact(o.spec, a, FirewallsReady);
    CauseSome(f, n);
    if Succeeds(o.spec, a, FirewallsReady) {
      FirewallsAnswered(a.firewall, n);
    }
  }

  lemma SSHKeysWritten(at: Stamp, a: Answers, o: NodeClass)
    requires HasAll(o)
    ensures var s := ResolvedStatus(at, a, o);
      && (Succeeds(o.spec, a, SSHKeysReady) ==> Answered(o.spec, a, s, SSHKeysReady))
      && (Blips(o.spec, a, SSHKeysReady) ==> s.sshKeys == o.status.sshKeys)
      && (!Succeeds(o.spec, a, SSHKeysReady) && !Blips(o.spec, a, SSHKeysReady) ==> s.sshKeys == [])
  {
    OutcomeExact(o.spec, a, SSHKeysReady);
    KeysAnswered(a, |o.spec.sshKeys|);
  }

  lemma ResolverWrites(at: Stamp, a: Answers, o: NodeClass, t: ConditionType)
    requires HasAll(o) && t != ValidationSucceeded
    ensures var s := ResolvedStatus(at, a, o);
      && (Succeeds(o.spec, a, t) ==> Answered(o.spec, a, s, t))
      && (Blips(o.spec, a, t) ==> SameField(s, o.status, t))
      && (!Succeeds(o.spec, a, t) && !Blips(o.spec, a, t) ==> Cleared(s, t))
  {
    OutcomeExact(o.spec, a, t);
    match t
    case FirewallsReady => FirewallsWritten(at, a, o);
    case SSHKeysReady => SSHKeysWritten(at, a, o);
    case BootstrapDiscoveryReady => WantedIff(o.spec, a);
    case _ =>
  }

  // ---------------------------------------------------------------- conditions

  /** Why a resolver found the class misconfigured. */
  ghost predicate RightFault(spec: Spec, a: Answers, t: ConditionType, reason: Reason)
  {
    match t
    case ImageReady => a.image.Err? && reason == ResolveFailed(Fault(a.image.error))
    case NetworkReady =>
      if a.network.Ok? then reason == NetworkHasNoSubnet else reason == ResolveFailed(Fault(a.network.error))
    case FirewallsReady =>
      exists i: nat :: i < |spec.firewalls| && a.firewall(i).Err? && reason == ResolveFailed(Fault(a.firewall(i).error))
        && (Missing(a.firewall(i).error) ==> forall j: nat | j < |spec.firewalls| && a.firewall(j).Err? :: Missing(a.firewall(j).error))
    case SSHKeysReady =>
      exists i: nat :: i < |spec.sshKeys| && a.sshKey(i).Err? && reason == ResolveFailed(Fault(a.sshKey(i).error)) && !Missing(a.sshKey(i).error)
    case PlacementGroupReady => a.placementGroup.Err? && reason == ResolveFailed(Fault(a.placementGroup.error))
    case BootstrapDiscoveryReady =>
      if Discovers(spec) && !a.refresh.RefreshOk? then reason == ClusterInfoUnavailable
      else if Wanted(spec, a).endpoint == "" || Wanted(spec, a).hashes == [] then reason == JoinParametersIncomplete
      else reason == InvalidCACertHash
    case ValidationSucceeded => true
  }

  /** Missing before a rejected credential or a bad request, by Hetzner code. */
  ghost function Fault(e: Err): FailureReason
  {
    if Missing(e) then ReasonNotFound
    else if Code(e).Some? && Code(e).value in CREDENTIAL_CODES then ReasonCredentialRejected
    else ReasonInvalidConfiguration
  }

  /** What a resolver that succeeded has to add: the keys it goes without, or how full a placement group is. */
  ghost predicate RightRemark(spec: Spec, a: Answers, t: ConditionType, c: Condition)
  {
    match t
    case SSHKeysReady =>
      if forall i: nat | i < |spec.sshKeys| :: a.sshKey(i).Ok? then c.reason == Resolved
      else c.reason == SSHKeysNarrowed && c.message.MissingKeys? && NamesMissing(spec, a, c.message.selectors)
    case PlacementGroupReady =>
      if spec.placementGroup.None? || a.placementGroup.Err? then c.reason == Resolved
      else if a.placementGroup.value.serverCount >= 10 then c.reason == PlacementGroupAtCapacity
      else if a.placementGroup.value.serverCount >= 8 then c.reason == PlacementGroupNearCapacity
      else c.reason == Resolved
    case _ => c.reason == Resolved
  }

  ghost predicate NamesMissing(spec: Spec, a: Answers, sels: seq<Selector>)
  {
    forall sel :: sel in sels <==> exists i: nat :: i < |spec.sshKeys| && spec.sshKeys[i] == sel && a.sshKey(i).Err?
  }

  lemma FaultIs(e: Err)
    requires Permanent(e)
    ensures ConfigFailure(e) == Some(Fault(e))
  {
    ConfigFailureExact(e);
  }

  lemma FirewallsCondition(at: Stamp, a: Answers, o: NodeClass)
    requires HasAll(o) && OutcomeOf(o.spec, a, FirewallsReady).Misconfigured?
    ensures RightFault(o.spec, a, FirewallsReady, NextCondition(at, a, o, FirewallsReady).reason)
  {
    var f, n := FirewallFailures(a.firewall), |o.spec.firewalls|;
    CauseSome(f, n);
    var cause := Cause(f, n).value;
    assert !FailsAs(f, cause, TransientFailure);
    forall j: nat | j < n && a.firewall(j).Err? ensures Permanent(a.firewall(j).error) && ConfigFailure(a.firewall(j).error) == Some(Fault(a.firewall(j).error)) {
      assert !FailsAs(f, j, TransientFailure);
      PermanentIff(a.firewall(j).error);
      FaultIs(a.firewall(j).error);
    }
    if Missing(a.firewall(cause).error) {
      forall j: nat | j < n && a.firewall(j).Err? ensures Missing(a.firewall(j).error) {
        assert !FailsAs(f, j, SevereFailure);
      }
    }
  }

  lemma SSHKeysCondition(at: Stamp, a: Answers, o: NodeClass)
    requires HasAll(o)
    ensures OutcomeOf(o.spec, a, SSHKeysReady).Misconfigured? ==>
      RightFault(o.spec, a, SSHKeysReady, NextCondition(at, a, o, SSHKeysReady).reason)
    ensures OutcomeOf(o.spec, a, SSHKeysReady).Success? ==>
      RightRemark(o.spec, a, SSHKeysReady, NextCondition(at, a, o, SSHKeysReady))
  {
    var f, n := SSHKeyFailures(a.sshKey), |o.spec.sshKeys|;
    if OutcomeOf(o.spec, a, SSHKeysReady).Misconfigured? {
      var i := First(f, SevereFailure, n).value;
      PermanentIff(a.sshKey(i).error);
      FaultIs(a.sshKey(i).error);
    }
    MissingSelectors(o.spec.sshKeys, f, n);
    assert forall i: nat | i < n :: f(i).None? <==> a.sshKey(i).Ok?;
  }

  lemma {:induction false} MissingSelectors(sels: seq<Selector>, f: Failures, n: nat)
    requires n <= |sels|
    ensures FailedSelectors(sels, f, n) == [] <==> forall i: nat | i < n :: f(i).None?
    ensures forall sel :: sel in FailedSelectors(sels, f, n) <==> exists i: nat :: i < n && sels[i] == sel && f(i).Some?
  {
    if n > 0 {
      MissingSelectors(sels, f, n - 1);
      forall sel ensures sel in FailedSelectors(sels, f, n) <==> exists i: nat :: i < n && sels[i] == sel && f(i).Some? {
        if i: nat :| i < n - 1 && sels[i] == sel && f(i).Some? {
          assert sel in FailedSelectors(sels, f, n - 1);
        }
      }
    }
  }

  lemma ResolverReasons(at: Stamp, a: Answers, o: NodeClass, t: ConditionType)
    requires HasAll(o) && t != ValidationSucceeded
    ensures OutcomeOf(o.spec, a, t).Misconfigured? ==> RightFault(o.spec, a, t, NextCondition(at, a, o, t).reason)
    ensures OutcomeOf(o.spec, a, t).Success? ==> RightRemark(o.spec, a, t, NextCondition(at, a, o, t))
  {
    match t
    case ImageReady =>
      if a.image.Err? && ConfigFailure(a.image.error).Some? {
        PermanentIff(a.image.error);
        FaultIs(a.image.error);
      }
    case NetworkReady =>
      if a.network.Err? && ConfigFailure(a.network.error).Some? {
        PermanentIff(a.network.error);
        FaultIs(a.network.error);
      }
    case FirewallsReady =>
      CauseSome(FirewallFailures(a.firewall), |o.spec.firewalls|);
      if OutcomeOf(o.spec, a, t).Misconfigured? {
        FirewallsCondition(at, a, o);
      }
    case SSHKeysReady => SSHKeysCondition(at, a, o);
    case PlacementGroupReady =>
      if a.placementGroup.Err? && ConfigFailure(a.placementGroup.error).Some? {
        PermanentIff(a.placementGroup.error);
        FaultIs(a.placementGroup.error);
      }
    case BootstrapDiscoveryReady => WantedIff(o.spec, a);
  }

  /** A blip leaves a condition that has ever resolved untouched, and gives one that has not a diagnosis. */
  ghost predicate BlipNoted(before: Condition, after: Condition, generation: nat)
  {
    if before.status.IsUnknown?
    then after.status.IsUnknown? && after.reason == Unreachable && after.observedGeneration == generation
    else after == before
  }

  lemma ResolverBlips(at: Stamp, a: Answers, o: NodeClass, t: ConditionType)
    requires HasAll(o) && t != ValidationSucceeded && OutcomeOf(o.spec, a, t).Transient?
    ensures BlipNoted(o.conditions[t], NextCondition(at, a, o, t), at.generation)
  {
  }

  lemma ResolverMoves(at: Stamp, a: Answers, o: NodeClass, t: ConditionType)
    requires HasAll(o) && t != ValidationSucceeded
    ensures var c, c' := o.conditions[t], NextCondition(at, a, o, t); c'.since == if c'.status == c.status then c.since else at.now
  {
  }

  // ---------------------------------------------------------------- a whole pass

  /** The field and the condition a pass leaves for `t`, given how it came out. */
  ghost predicate WrittenRight(o: NodeClass, a: Answers, now: int, p: NodeClass, t: ConditionType)
    requires HasAll(p)
  {
    var before := ConditionOf(Stamp(o.generation, now), o, t);
    var c := p.conditions[t];
    && (Succeeds(o.spec, a, t) ==>
          Answered(o.spec, a, p.status, t) && c.status.IsTrue? && c.observedGeneration == o.generation && RightRemark(o.spec, a, t, c))
    && (Blips(o.spec, a, t) ==> SameField(p.status, o.status, t) && BlipNoted(before, c, o.generation))
    && (!Succeeds(o.spec, a, t) && !Blips(o.spec, a, t) ==>
          Cleared(p.status, t) && c.status.IsFalse? && c.observedGeneration == o.generation && RightFault(o.spec, a, t, c.reason))
    && c.since == if c.status == before.status then before.since else now
  }

  /**
   * Every pass over every object writes, for each resolver: on success exactly
   * what was answered; on a blip nothing, but for a diagnosis where nothing has
   * ever resolved; on a misconfiguration an empty field and the right reason.
   */
  lemma PassWrites(o: NodeClass, a: Answers, now: int, t: ConditionType)
    requires t != ValidationSucceeded
    ensures WrittenRight(o, a, now, Pass(o, a, now), t)
  {
    var at := Stamp(o.generation, now);
    var i, p := Initialised(at, o), Pass(o, a, now);
    PassFields(o, a, now);
    assert p.conditions[t] == NextCondition(at, a, i, t) && SameField(p.status, ResolvedStatus(at, a, i), t);
    OutcomeExact(o.spec, a, t);
    ResolverWrites(at, a, i, t);
    ResolverReasons(at, a, i, t);
    ResolverRecorded(at, a, i, t);
    ResolverMoves(at, a, i, t);
    if OutcomeOf(o.spec, a, t).Transient? {
      ResolverBlips(at, a, i, t);
    }
    FieldsCarry(o.spec, a, p.status, ResolvedStatus(at, a, i), t);
    if Blips(o.spec, a, t) {
      FieldsMatch(p.status, ResolvedStatus(at, a, i), o.status, t);
    }
  }

  lemma ResolverRecorded(at: Stamp, a: Answers, o: NodeClass, t: ConditionType)
    requires HasAll(o) && t != ValidationSucceeded
    ensures var c := NextCondition(at, a, o, t);
      && (OutcomeOf(o.spec, a, t).Success? ==> c.status.IsTrue? && c.observedGeneration == at.generation)
      && (OutcomeOf(o.spec, a, t).Misconfigured? ==> c.status.IsFalse? && c.observedGeneration == at.generation)
  {
    CauseSome(FirewallFailures(a.firewall), |o.spec.firewalls|);
  }

  lemma FieldsCarry(spec: Spec, a: Answers, s: Status, s': Status, t: ConditionType)
    requires SameField(s, s', t)
    ensures Answered(spec, a, s, t) <==> Answered(spec, a, s', t)
    ensures Cleared(s, t) <==> Cleared(s', t)
  {
  }

  lemma FieldsMatch(s: Status, s': Status, s'': Status, t: ConditionType)
    requires SameField(s, s', t) && SameField(s', s'', t)
    ensures SameField(s, s'', t)
  {
  }
}
