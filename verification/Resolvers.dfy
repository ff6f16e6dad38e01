/**
 * The six resolving sub-reconcilers of a NodeClass
 * (internal/controllers/nodeclass/image.go, network.go, firewall.go, sshkey.go,
 * placementgroup.go, bootstrap.go). Each owns one condition and one status
 * field, so each is a function of that cell.
 */
module Resolvers {
  import opened Common
  import opened Errors
  import opened NodeClassTypes
  import opened Conditions

  // ---------------------------------------------------------------- image

  function ImageOutcome(answer: Result<ImageStatus, Err>): Outcome
  {
    if answer.Ok? then Success else if ConfigFailure(answer.error).Some? then Misconfigured else Transient
  }

  function ImageCell(at: Stamp, sel: Selector, answer: Result<ImageStatus, Err>, c: Cell<Option<ImageStatus>>): Cell<Option<ImageStatus>>
  {
    match answer
    case Ok(img) => Cell(SetTrue(at, c.condition), Some(img))
    case Err(e) =>
      var why := ConfigFailure(e);
      if why.Some? then Cell(Set(at, c.condition, IsFalse, ResolveFailed(why.value), FailureText([sel], e)), None)
      else c.(condition := NoteUnreachable(at, c.condition, e))
  }

  // ---------------------------------------------------------------- network

  function NetworkOutcome(sel: Option<Selector>, answer: Result<NetworkStatus, Err>): Outcome
  {
    if sel.None? then Success
    else match answer
      case Ok(net) => if net.zone == "" then Misconfigured else Success
      case Err(e) => if ConfigFailure(e).Some? then Misconfigured else Transient
  }

  function NetworkCell(at: Stamp, sel: Option<Selector>, answer: Result<NetworkStatus, Err>, c: Cell<Option<NetworkStatus>>)
    : Cell<Option<NetworkStatus>>
  {
    if sel.None? then Cell(SetTrue(at, c.condition), None)
    else match answer
      case Err(e) =>
        var why := ConfigFailure(e);
        if why.Some? then Cell(Set(at, c.condition, IsFalse, ResolveFailed(why.value), FailureText([sel.value], e)), None)
        else c.(condition := NoteUnreachable(at, c.condition, e))
      case Ok(net) =>
        if net.zone == "" then Cell(Set(at, c.condition, IsFalse, NetworkHasNoSubnet, NoMessage), None)
        else Cell(SetTrue(at, c.condition), Some(net))
  }

  // ---------------------------------------------------------------- placement group

  const PLACEMENT_GROUP_MAX_SERVERS := 10
  const PLACEMENT_GROUP_WARN_SERVERS := PLACEMENT_GROUP_MAX_SERVERS - 2

  function PlacementGroupOutcome(sel: Option<Selector>, answer: Result<PlacementGroupStatus, Err>): Outcome
  {
    if sel.None? || answer.Ok? then Success
    else if ConfigFailure(answer.error).Some? then Misconfigured else Transient
  }

  function PlacementGroupCell(at: Stamp, sel: Option<Selector>, answer: Result<PlacementGroupStatus, Err>,
                              c: Cell<Option<PlacementGroupStatus>>): Cell<Option<PlacementGroupStatus>>
  {
    if sel.None? then Cell(SetTrue(at, c.condition), None)
    else match answer
      case Err(e) =>
        var why := ConfigFailure(e);
        if why.Some? then Cell(Set(at, c.condition, IsFalse, ResolveFailed(why.value), FailureText([sel.value], e)), None)
        else c.(condition := NoteUnreachable(at, c.condition, e))
      case Ok(pg) =>
        var reason := if pg.serverCount >= PLACEMENT_GROUP_MAX_SERVERS then PlacementGroupAtCapacity
                      else if pg.serverCount >= PLACEMENT_GROUP_WARN_SERVERS then PlacementGroupNearCapacity
                      else Resolved;
        Cell(Set(at, c.condition, IsTrue, reason, NoMessage), Some(pg))
  }

  // ---------------------------------------------------------------- selector lists

  /** The failure of the i-th selector of a list, if it failed. */
  type Failures = nat -> Option<Err>

  datatype Kind = AnyFailure | TransientFailure | SevereFailure

  /** A severe failure is a configuration failure other than a missing resource. */
  predicate FailsAs(f: Failures, i: nat, kind: Kind)
  {
    && f(i).Some?
    && (kind.TransientFailure? ==> ConfigFailure(f(i).value).None?)
    && (kind.SevereFailure? ==> ConfigFailure(f(i).value).Some? && ConfigFailure(f(i).value) != Some(ReasonNotFound))
  }

  /** The first index below `n` that fails as `kind`. */
  ghost function First(f: Failures, kind: Kind, n: nat): (r: Option<nat>)
    ensures r.Some? ==> r.value < n && FailsAs(f, r.value, kind) && forall j: nat | j < r.value :: !FailsAs(f, j, kind)
    ensures r.None? ==> forall j: nat | j < n :: !FailsAs(f, j, kind)
  {
    if n == 0 then None
    else
      var r := First(f, kind, n - 1);
      if r.Some? then r else if FailsAs(f, n - 1, kind) then Some(n - 1) else None
  }

  lemma FirstIs(f: Failures, kind: Kind, n: nat, i: nat)
    requires i < n && FailsAs(f, i, kind) && forall j: nat | j < i :: !FailsAs(f, j, kind)
    ensures First(f, kind, n) == Some(i)
  {
  }

  /** The selectors that failed, in order. */
  ghost function FailedSelectors(sels: seq<Selector>, f: Failures, n: nat): seq<Selector>
    requires n <= |sels|
  {
    if n == 0 then []
    else
      var rest := FailedSelectors(sels, f, n - 1);
      if f(n - 1).Some? then rest + [sels[n - 1]] else rest
  }

  /** The reported failure: the first that is not merely a missing resource, else the first. */
  ghost function Cause(f: Failures, n: nat): (r: Option<nat>)
    ensures r.Some? ==> r.value < n && f(r.value).Some?
  {
    var severe := First(f, SevereFailure, n);
    if severe.Some? then severe else First(f, AnyFailure, n)
  }

  /** What the accumulation loop carries: the failed selectors, the reason to report and whether to fail closed. */
  datatype Tally = Tally(missing: seq<Selector>, cause: Option<nat>, failClosed: bool)

  ghost function TallyOf(sels: seq<Selector>, f: Failures, n: nat): Tally
    requires n <= |sels|
  {
    Tally(FailedSelectors(sels, f, n), Cause(f, n), exists i: nat :: i < n && FailsAs(f, i, SevereFailure))
  }

  /** One turn of the loop on a selector that failed for a configuration reason. */
  method Accumulate(sels: seq<Selector>, f: Failures, i: nat, t: Tally) returns (t': Tally)
    requires i < |sels| && f(i).Some? && ConfigFailure(f(i).value).Some?
    requires t == TallyOf(sels, f, i)
    ensures t' == TallyOf(sels, f, i + 1)
  {
    var r := ConfigFailure(f(i).value).value;
    var failClosed := t.failClosed;
    if r != ReasonNotFound {
      failClosed := true;
    }
    var cause := t.cause;
    if cause.None? || (r != ReasonNotFound && !FailsAs(f, cause.value, SevereFailure)) {
      cause := Some(i);
    }
    t' := Tally(t.missing + [sels[i]], cause, failClosed);
    assert FailsAs(f, i, SevereFailure) <==> r != ReasonNotFound;
    if t.failClosed {
      assert First(f, SevereFailure, i).Some?;
    }
  }

  lemma TallySkips(sels: seq<Selector>, f: Failures, i: nat)
    requires i < |sels| && f(i).None?
    ensures TallyOf(sels, f, i + 1) == TallyOf(sels, f, i)
  {
  }

  // ---------------------------------------------------------------- firewalls: fail closed

  function FirewallFailures(answer: nat -> Result<FirewallStatus, Err>): Failures
  {
    (i: nat) => if answer(i).Err? then Some(answer(i).error) else None
  }

  ghost function ListOutcome(f: Failures, n: nat, open: bool): Outcome
  {
    if First(f, TransientFailure, n).Some? then Transient
    else if First(f, SevereFailure, n).Some? || (!open && First(f, AnyFailure, n).Some?) then Misconfigured
    else Success
  }

  ghost function ResolvedFirewalls(answer: nat -> Result<FirewallStatus, Err>, n: nat): seq<FirewallStatus>
  {
    if n == 0 then []
    else
      var rest := ResolvedFirewalls(answer, n - 1);
      if answer(n - 1).Ok? then rest + [answer(n - 1).value] else rest
  }

  ghost function FirewallsCell(at: Stamp, sels: seq<Selector>, answer: nat -> Result<FirewallStatus, Err>,
                               c: Cell<seq<FirewallStatus>>): Cell<seq<FirewallStatus>>
  {
    var f := FirewallFailures(answer);
    var n := |sels|;
    var blip := First(f, TransientFailure, n);
    var cause := Cause(f, n);
    if blip.Some? then c.(condition := NoteUnreachable(at, c.condition, f(blip.value).value))
    else if cause.Some? then
      assert !FailsAs(f, cause.value, TransientFailure);
      Cell(Set(at, c.condition, IsFalse, ResolveFailed(ConfigFailure(f(cause.value).value).value),
               FailureText(FailedSelectors(sels, f, n), f(cause.value).value)), [])
    else Cell(SetTrue(at, c.condition), ResolvedFirewalls(answer, n))
  }

  method ReconcileFirewalls(at: Stamp, sels: seq<Selector>, answer: nat -> Result<FirewallStatus, Err>, c: Cell<seq<FirewallStatus>>)
    returns (c': Cell<seq<FirewallStatus>>, outcome: Outcome)
    ensures c' == FirewallsCell(at, sels, answer, c)
    ensures outcome == ListOutcome(FirewallFailures(answer), |sels|, false)
  {
    if sels == [] {
      return Cell(SetTrue(at, c.condition), []), Success;
    }
    var f := FirewallFailures(answer);
    var resolved := [];
    var tally := Tally([], None, false);
    for i := 0 to |sels|
      invariant forall j: nat | j < i :: !FailsAs(f, j, TransientFailure)
      invariant tally == TallyOf(sels, f, i) && resolved == ResolvedFirewalls(answer, i)
    {
      match answer(i) {
        case Err(e) =>
          if ConfigFailure(e).None? {
            FirstIs(f, TransientFailure, |sels|, i);
            return c.(condition := NoteUnreachable(at, c.condition, e)), Transient;
          }
          tally := Accumulate(sels, f, i, tally);
        case Ok(fw) =>
          TallySkips(sels, f, i);
          resolved := resolved + [fw];
      }
    }
    CauseIffMissing(sels, f, |sels|);
    if |tally.missing| > 0 {
      assert !FailsAs(f, tally.cause.value, TransientFailure);
      var e := f(tally.cause.value).value;
      return Cell(Set(at, c.condition, IsFalse, ResolveFailed(ConfigFailure(e).value), FailureText(tally.missing, e)), []), Misconfigured;
    }
    return Cell(SetTrue(at, c.condition), resolved), Success;
  }

  lemma {:induction false} CauseIffMissing(sels: seq<Selector>, f: Failures, n: nat)
    requires n <= |sels|
    ensures Cause(f, n).Some? <==> FailedSelectors(sels, f, n) != []
  {
    if n > 0 {
      CauseIffMissing(sels, f, n - 1);
    }
  }

  // ---------------------------------------------------------------- ssh keys: a missing key fails open

  function SSHKeyFailures(answer: nat -> Result<SSHKeyStatus, Err>): Failures
  {
    (i: nat) => if answer(i).Err? then Some(answer(i).error) else None
  }

  ghost function ResolvedSSHKeys(answer: nat -> Result<SSHKeyStatus, Err>, n: nat): seq<SSHKeyStatus>
  {
    if n == 0 then []
    else
      var rest := ResolvedSSHKeys(answer, n - 1);
      if answer(n - 1).Ok? then rest + [answer(n - 1).value] else rest
  }

  ghost function SSHKeysCell(at: Stamp, sels: seq<Selector>, answer: nat -> Result<SSHKeyStatus, Err>,
                             c: Cell<seq<SSHKeyStatus>>): Cell<seq<SSHKeyStatus>>
  {
    var f := SSHKeyFailures(answer);
    var n := |sels|;
    var blip := First(f, TransientFailure, n);
    var severe := First(f, SevereFailure, n);
    var missing := FailedSelectors(sels, f, n);
    if blip.Some? then c.(condition := NoteUnreachable(at, c.condition, f(blip.value).value))
    else if severe.Some? then
      Cell(Set(at, c.condition, IsFalse, ResolveFailed(ConfigFailure(f(severe.value).value).value),
               FailureText(missing, f(severe.value).value)), [])
    else if missing != [] then
      Cell(Set(at, c.condition, IsTrue, SSHKeysNarrowed, MissingKeys(missing)), ResolvedSSHKeys(answer, n))
    else Cell(SetTrue(at, c.condition), ResolvedSSHKeys(answer, n))
  }

  /** A narrowing is announced when the condition did not already say exactly this. */
  predicate Announces(before: Condition, after: Condition, reason: Reason)
  {
    after.status.IsTrue? && after.reason == reason && (before.reason != reason || before.message != after.message)
  }

  method ReconcileSSHKeys(at: Stamp, sels: seq<Selector>, answer: nat -> Result<SSHKeyStatus, Err>, c: Cell<seq<SSHKeyStatus>>)
    returns (c': Cell<seq<SSHKeyStatus>>, outcome: Outcome, published: bool)
    ensures c' == SSHKeysCell(at, sels, answer, c)
    ensures outcome == ListOutcome(SSHKeyFailures(answer), |sels|, true)
    ensures published <==> Announces(c.condition, c'.condition, SSHKeysNarrowed)
    ensures published <==>
      && c'.condition.reason == SSHKeysNarrowed
      && (c.condition.reason != SSHKeysNarrowed || c.condition.message != c'.condition.message)
  {
    if sels == [] {
      return Cell(SetTrue(at, c.condition), []), Success, false;
    }
    var f := SSHKeyFailures(answer);
    var resolved := [];
    var tally := Tally([], None, false);
    for i := 0 to |sels|
      invariant forall j: nat | j < i :: !FailsAs(f, j, TransientFailure)
      invariant tally == TallyOf(sels, f, i) && resolved == ResolvedSSHKeys(answer, i)
    {
      match answer(i) {
        case Err(e) =>
          if ConfigFailure(e).None? {
            FirstIs(f, TransientFailure, |sels|, i);
            return c.(condition := NoteUnreachable(at, c.condition, e)), Transient, false;
          }
          tally := Accumulate(sels, f, i, tally);
        case Ok(key) =>
          TallySkips(sels, f, i);
          resolved := resolved + [key];
      }
    }
    CauseIffMissing(sels, f, |sels|);
    if tally.failClosed {
      var e := f(tally.cause.value).value;
      return Cell(Set(at, c.condition, IsFalse, ResolveFailed(ConfigFailure(e).value), FailureText(tally.missing, e)), []), Misconfigured, false;
    }
    if |tally.missing| > 0 {
      var message := MissingKeys(tally.missing);
      var firstTime := c.condition.reason != SSHKeysNarrowed || c.condition.message != message;
      return Cell(Set(at, c.condition, IsTrue, SSHKeysNarrowed, message), resolved), Success, firstTime;
    }
    return Cell(SetTrue(at, c.condition), resolved), Success, false;
  }

  // ---------------------------------------------------------------- bootstrap discovery

  /** The kubeadm join parameters, consumed as a pair. */
  datatype JoinParams = JoinParams(endpoint: string, hashes: seq<string>)

  const NO_JOIN := JoinParams("", [])

  datatype RefreshOutcome = RefreshOk | RefreshConfigError(error: Err) | RefreshTransient(error: Err)

  predicate HexDigit(c: char)
  {
    '0' <= c <= '9' || 'a' <= c <= 'f' || 'A' <= c <= 'F'
  }

  /** ValidHash: "sha256:" and 64 hex digits. */
  predicate ValidHash(s: string)
  {
    |s| == 71 && s[..7] == "sha256:" && forall i | 7 <= i < 71 :: HexDigit(s[i])
  }

  /** A pin is the algorithm's name, a colon and the 32 bytes of the digest in hex, of either case, and nothing else. */
  lemma ValidHashIff(s: string)
    ensures ValidHash(s) <==> exists hex: string :: IsDigest(hex) && s == "sha256:" + hex
  {
    if ValidHash(s) {
      assert forall i | 0 <= i < 64 :: HexDigit(s[7..][i]) by {
        assert forall i | 0 <= i < 64 :: s[7..][i] == s[7 + i];
      }
      assert s == "sha256:" + s[7..] && IsDigest(s[7..]);
    }
    if hex: string :| IsDigest(hex) && s == "sha256:" + hex {
      assert s[..7] == "sha256:";
      assert forall i | 7 <= i < 71 :: s[i] == hex[i - 7];
    }
  }

  ghost predicate IsDigest(hex: string)
  {
    |hex| == 64 && forall i | 0 <= i < 64 :: hex[i] in "0123456789abcdefABCDEF"
  }

  /** Discovery.Get: half a pair counts as nothing discovered. */
  function DiscoveryGet(d: JoinParams): JoinParams
  {
    if d.endpoint == "" || d.hashes == [] then NO_JOIN else d
  }

  /** Discovery.Resolve: overrides win, and anything still missing is an error. */
  function ResolveJoin(discovered: JoinParams, override: JoinParams): (r: Option<JoinParams>)
    ensures r.Some? ==> r.value.endpoint != "" && r.value.hashes != []
    ensures r.Some? && override.endpoint != "" ==> r.value.endpoint == override.endpoint
    ensures r.Some? && override.hashes != [] ==> r.value.hashes == override.hashes
  {
    var got := DiscoveryGet(discovered);
    var endpoint := if override.endpoint != "" then override.endpoint else got.endpoint;
    var hashes := if override.hashes != [] then override.hashes else got.hashes;
    if endpoint == "" || hashes == [] then None else Some(JoinParams(endpoint, hashes))
  }

  function BadHashes(hashes: seq<string>): seq<string>
  {
    if hashes == [] then []
    else
      var rest := BadHashes(hashes[..|hashes| - 1]);
      if ValidHash(hashes[|hashes| - 1]) then rest else rest + [hashes[|hashes| - 1]]
  }

  method InvalidHashes(hashes: seq<string>) returns (bad: seq<string>)
    ensures bad == BadHashes(hashes)
  {
    bad := [];
    for i := 0 to |hashes|
      invariant bad == BadHashes(hashes[..i])
    {
      assert hashes[..i + 1][..i] == hashes[..i];
      if !ValidHash(hashes[i]) {
        bad := bad + [hashes[i]];
      }
    }
    assert hashes[..|hashes|] == hashes;
  }

  lemma {:induction false} NoBadHashes(hashes: seq<string>)
    ensures BadHashes(hashes) == [] <==> forall i | 0 <= i < |hashes| :: ValidHash(hashes[i])
  {
    if hashes != [] {
      NoBadHashes(hashes[..|hashes| - 1]);
      assert forall i | 0 <= i < |hashes| - 1 :: hashes[..|hashes| - 1][i] == hashes[i];
    }
  }

  predicate NeedsDiscovery(override: JoinParams)
  {
    override.endpoint == "" || override.hashes == []
  }

  function BootstrapOutcome(override: JoinParams, refresh: RefreshOutcome, discovered: JoinParams): Outcome
  {
    if NeedsDiscovery(override) && refresh.RefreshTransient? then Transient
    else if NeedsDiscovery(override) && refresh.RefreshConfigError? then Misconfigured
    else
      var r := ResolveJoin(discovered, override);
      if r.None? || BadHashes(r.value.hashes) != [] then Misconfigured else Success
  }

  function BootstrapCell(at: Stamp, override: JoinParams, refresh: RefreshOutcome, discovered: JoinParams,
                         c: Cell<JoinParams>): Cell<JoinParams>
  {
    if NeedsDiscovery(override) && refresh.RefreshTransient? then
      c.(condition := NoteUnreachable(at, c.condition, refresh.error))
    else if NeedsDiscovery(override) && refresh.RefreshConfigError? then
      Cell(Set(at, c.condition, IsFalse, ClusterInfoUnavailable, ErrorText(refresh.error)), NO_JOIN)
    else
      var r := ResolveJoin(discovered, override);
      if r.None? then Cell(Set(at, c.condition, IsFalse, JoinParametersIncomplete, NoMessage), NO_JOIN)
      else
        var bad := BadHashes(r.value.hashes);
        if bad != [] then Cell(Set(at, c.condition, IsFalse, InvalidCACertHash, Pins(bad)), NO_JOIN)
        else Cell(SetTrue(at, c.condition), r.value)
  }
}
