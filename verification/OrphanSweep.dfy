/** The sweep for servers whose NodeClaim is gone (internal/controllers/instancegc/controller.go). */
module OrphanSweep {
  import opened Common
  import opened Servers

  /** Outcome of one delete, from the sweep's point of view. */
  datatype Outcome = Deleted | AlreadyGone | DeleteFailed

  /** Why a sweep did nothing: no cluster name, or one of the two lists could not be read. */
  datatype Refusal = NoName | ServersUnread | ClaimsUnread

  /** `reaped` is the metric's increment; a sweep with failures returns an error. */
  datatype Report = Refused(why: Refusal) | Swept(asked: seq<int>, reaped: nat, failures: nat)

  /** An orphan at instant `now`: it names a claim that is not live, and is known to be old enough. */
  predicate Orphan(srv: Server, live: set<string>, now: int, minAge: int)
  {
    var claim := Label(srv.labels, LABEL_NODE_CLAIM);
    claim != "" && claim !in live && srv.created.Some? && now - srv.created.value >= minAge
  }

  ghost function Orphans(servers: seq<Server>, live: set<string>, clock: seq<int>, minAge: int): seq<int>
    requires |clock| == |servers|
  {
    if servers == [] then []
    else
      var n := |servers| - 1;
      var rest := Orphans(servers[..n], live, clock[..n], minAge);
      if Orphan(servers[n], live, clock[n], minAge) then rest + [servers[n].id] else rest
  }

  /** How many deletes of orphans came out as `o`. */
  ghost function CountOf(servers: seq<Server>, live: set<string>, clock: seq<int>, minAge: int, outcomes: seq<Outcome>, o: Outcome): nat
    requires |clock| == |servers| == |outcomes|
  {
    if servers == [] then 0
    else
      var n := |servers| - 1;
      CountOf(servers[..n], live, clock[..n], minAge, outcomes[..n], o)
      + if Orphan(servers[n], live, clock[n], minAge) && outcomes[n] == o then 1 else 0
  }

  ghost function SweepOf(servers: seq<Server>, live: set<string>, clock: seq<int>, minAge: int, outcomes: seq<Outcome>): Report
    requires |clock| == |servers| == |outcomes|
  {
    Swept(Orphans(servers, live, clock, minAge),
          CountOf(servers, live, clock, minAge, outcomes, Deleted),
          CountOf(servers, live, clock, minAge, outcomes, DeleteFailed))
  }

  /** Every delete asked for was a reap, a server already gone, or a failure. */
  lemma {:induction false} SweepAdds(servers: seq<Server>, live: set<string>, clock: seq<int>, minAge: int, outcomes: seq<Outcome>)
    requires |clock| == |servers| == |outcomes|
    ensures var r := SweepOf(servers, live, clock, minAge, outcomes);
      |r.asked| == r.reaped + r.failures + CountOf(servers, live, clock, minAge, outcomes, AlreadyGone)
  {
    if servers != [] {
      var n := |servers| - 1;
      SweepAdds(servers[..n], live, clock[..n], minAge, outcomes[..n]);
    }
  }

  /** The deleting loop. A server found already gone is neither reaped nor a failure. */
  method DeleteOrphans(servers: seq<Server>, live: set<string>, clock: seq<int>, minAge: int, outcomes: seq<Outcome>)
    returns (r: Report)
    requires |clock| == |servers| == |outcomes|
    ensures r == SweepOf(servers, live, clock, minAge, outcomes)
  {
    var asked, reaped, failures := [], 0, 0;
    for i := 0 to |servers|
      invariant Swept(asked, reaped, failures) == SweepOf(servers[..i], live, clock[..i], minAge, outcomes[..i])
    {
      assert servers[..i + 1][..i] == servers[..i] && clock[..i + 1][..i] == clock[..i];
      assert outcomes[..i + 1][..i] == outcomes[..i];
      var srv := servers[i];
      var claim := Label(srv.labels, LABEL_NODE_CLAIM);
      if claim == "" || claim in live {
        continue;
      }
      if srv.created.None? {
        continue;
      }
      if clock[i] - srv.created.value < minAge {
        continue;
      }
      asked := asked + [srv.id];
      match outcomes[i] {
        case Deleted => reaped := reaped + 1;
        case AlreadyGone =>
        case DeleteFailed => failures := failures + 1;
      }
    }
    assert servers[..|servers|] == servers && clock[..|clock|] == clock && outcomes[..|outcomes|] == outcomes;
    return Swept(asked, reaped, failures);
  }

  /**
   * One sweep. `clock[i]` is the time when the i-th server is judged and
   * `outcomes[i]` what its delete would answer. With no claim in sight it
   * deletes nothing at all.
   */
  method Reconcile(cluster: string, listing: Result<seq<Server>, Failure>, claims: Result<seq<string>, Failure>,
                   clock: seq<int>, outcomes: seq<Outcome>, minAge: int) returns (r: Report)
    requires listing.Ok? ==> |clock| == |listing.value| == |outcomes|
    ensures r == Refused(NoName) <==> cluster == ""
    ensures r == Refused(ServersUnread) <==> cluster != "" && listing.Err?
    ensures r == Refused(ClaimsUnread) <==> cluster != "" && listing.Ok? && listing.value != [] && claims.Err?
    ensures r.Swept? && (listing.value == [] || claims.value == []) ==> r == Swept([], 0, 0)
    ensures r.Swept? && listing.value != [] && claims.value != [] ==>
      r == SweepOf(listing.value, Members(claims.value), clock, minAge, outcomes)
  {
    if cluster == "" {
      return Refused(NoName);
    }
    if listing.Err? {
      return Refused(ServersUnread);
    }
    if listing.value == [] {
      return Swept([], 0, 0);
    }
    if claims.Err? {
      return Refused(ClaimsUnread);
    }
    var names := claims.value;
    var live: set<string> := {};
    for i := 0 to |names|
      invariant live == Members(names[..i]) && (i > 0 ==> live != {})
    {
      live := live + {names[i]};
    }
    assert names[..|names|] == names;
    if live == {} {
      return Swept([], 0, 0);
    }
    r := DeleteOrphans(listing.value, live, clock, minAge, outcomes);
  }

  /** A server that names a claim, the claim is not live, its creation time is known and `minAge` has passed since. */
  ghost predicate LeftBehind(srv: Server, live: set<string>, now: int, minAge: int)
  {
    && LABEL_NODE_CLAIM in srv.labels && srv.labels[LABEL_NODE_CLAIM] != "" && srv.labels[LABEL_NODE_CLAIM] !in live
    && srv.created.Some? && srv.created.value + minAge <= now
  }

  lemma OrphanIff(srv: Server, live: set<string>, now: int, minAge: int)
    ensures Orphan(srv, live, now, minAge) <==> LeftBehind(srv, live, now, minAge)
  {
  }

  /** The sweep asks for a server exactly when some entry of that id is an orphan at its instant. */
  lemma {:induction false} OrphansExact(servers: seq<Server>, live: set<string>, clock: seq<int>, minAge: int, id: int)
    requires |clock| == |servers|
    ensures id in Orphans(servers, live, clock, minAge) <==>
      exists i :: 0 <= i < |servers| && servers[i].id == id && LeftBehind(servers[i], live, clock[i], minAge)
  {
    if servers != [] {
      var n := |servers| - 1;
      OrphansExact(servers[..n], live, clock[..n], minAge, id);
      var rest := Orphans(servers[..n], live, clock[..n], minAge);
      OrphanIff(servers[n], live, clock[n], minAge);
      assert id in rest <==>
        exists i :: 0 <= i < n && servers[i].id == id && LeftBehind(servers[i], live, clock[i], minAge) by {
        assert forall i | 0 <= i < n :: servers[..n][i] == servers[i] && clock[..n][i] == clock[i];
      }
    }
  }

  // ---------------------------------------------------------------- against the real history of claims

  /** The NodeClaims that exist at each instant. */
  type Claims = int -> set<string>

  /**
   * One sweep against that history: the servers listed at `listedAt`, the claims
   * read at `readAt` and shown as they were at `viewAt`, and the i-th server
   * judged at `clock[i]`.
   */
  datatype Sweep = Sweep(servers: seq<Server>, listedAt: int, readAt: int, viewAt: int, clock: seq<int>)

  /**
   * Claim reads are at most `lag` stale, a sweep judges its last server within
   * `length` of reading them, and Hetzner's creation stamps are `skew` behind the
   * cluster's clock (negative: ahead).
   */
  datatype Timing = Timing(lag: nat, length: nat, skew: int)

  /** When a server was created, by the cluster's clock. */
  function CreatedAt(tm: Timing, srv: Server): int
    requires srv.created.Some?
  {
    srv.created.value + tm.skew
  }

  ghost predicate Timely(sw: Sweep, tm: Timing)
  {
    && |sw.clock| == |sw.servers|
    && sw.listedAt <= sw.readAt && sw.readAt - tm.lag <= sw.viewAt <= sw.readAt
    && (forall i | 0 <= i < |sw.servers| && sw.servers[i].created.Some? :: CreatedAt(tm, sw.servers[i]) <= sw.listedAt)
    && forall i | 0 <= i < |sw.clock| :: sw.readAt <= sw.clock[i] <= sw.readAt + tm.length
  }

  /** The server's claim existed when the server was created and has existed ever since, up to `until`. */
  ghost predicate Claimed(claims: Claims, tm: Timing, srv: Server, until: int)
  {
    srv.created.Some? && forall t | CreatedAt(tm, srv) <= t <= until :: Label(srv.labels, LABEL_NODE_CLAIM) in claims(t)
  }

  /** Every entry of the listing with this id has a living claim until it is judged. */
  ghost predicate ClaimLives(claims: Claims, tm: Timing, sw: Sweep, id: int)
    requires |sw.clock| == |sw.servers|
  {
    forall i | 0 <= i < |sw.servers| && sw.servers[i].id == id :: Claimed(claims, tm, sw.servers[i], sw.clock[i])
  }

  /** What Reconcile asks to delete in this sweep. */
  ghost function Asked(claims: Claims, sw: Sweep, minAge: int): seq<int>
    requires |sw.clock| == |sw.servers|
  {
    if claims(sw.viewAt) == {} then [] else Orphans(sw.servers, claims(sw.viewAt), sw.clock, minAge)
  }

  /** `Asked` is what the sweep of those servers and claims does, whatever order the claims are read in. */
  lemma AskedByReconcile(claims: Claims, sw: Sweep, names: seq<string>, outcomes: seq<Outcome>, minAge: int)
    requires |sw.clock| == |sw.servers| == |outcomes| && Members(names) == claims(sw.viewAt)
    ensures names == [] ==> Asked(claims, sw, minAge) == []
    ensures names != [] ==> SweepOf(sw.servers, Members(names), sw.clock, minAge, outcomes).asked == Asked(claims, sw, minAge)
  {
    if names != [] {
      assert names[0] in Members(names);
    }
  }

  /** No timely sweep, against any history of claims, deletes a server whose claim never went away. */
  ghost predicate NeverDeletesClaimed(tm: Timing, minAge: int)
  {
    forall claims: Claims, sw, id | Timely(sw, tm) && ClaimLives(claims, tm, sw, id) :: id !in Asked(claims, sw, minAge)
  }

  predicate MarginFits(tm: Timing, minAge: int)
  {
    tm.lag == 0 || tm.lag + tm.length + tm.skew <= minAge
  }

  lemma ClaimedIsSpared(claims: Claims, sw: Sweep, i: int, tm: Timing, minAge: int)
    requires Timely(sw, tm) && 0 <= i < |sw.servers| && Claimed(claims, tm, sw.servers[i], sw.clock[i])
    requires MarginFits(tm, minAge)
    ensures !LeftBehind(sw.servers[i], claims(sw.viewAt), sw.clock[i], minAge)
  {
    var srv := sw.servers[i];
    if sw.clock[i] - srv.created.value >= minAge {
      assert CreatedAt(tm, srv) <= sw.viewAt <= sw.clock[i];
    }
  }

  lemma SweepSparesClaimed(claims: Claims, sw: Sweep, id: int, tm: Timing, minAge: int)
    requires Timely(sw, tm) && ClaimLives(claims, tm, sw, id) && MarginFits(tm, minAge)
    ensures id !in Asked(claims, sw, minAge)
  {
    OrphansExact(sw.servers, claims(sw.viewAt), sw.clock, minAge, id);
    forall i | 0 <= i < |sw.servers| && sw.servers[i].id == id
      ensures !LeftBehind(sw.servers[i], claims(sw.viewAt), sw.clock[i], minAge)
    {
      ClaimedIsSpared(claims, sw, i, tm, minAge);
    }
  }

  function LateClaim(t: int): set<string>
  {
    if t >= 0 then {"claim", "other"} else {"other"}
  }

  /** A server created at 0 together with its claim, and a sweep that views the claims just before. */
  lemma MarginTooSmall(tm: Timing, minAge: int)
    requires !MarginFits(tm, minAge)
    ensures !NeverDeletesClaimed(tm, minAge)
  {
    var srv := Server(1, "claim", "cx22", "nbg1", "running", map[LABEL_NODE_CLAIM := "claim"], 0, Some(-tm.skew), [], [], 0, true, true);
    var earliest := minAge - tm.skew - tm.length;
    var readAt := if earliest > 0 then earliest else 0;
    var sw := Sweep([srv], 0, readAt, readAt - tm.lag, [readAt + tm.length]);
    assert Timely(sw, tm) && ClaimLives(LateClaim, tm, sw, 1);
    assert LateClaim(sw.viewAt) == {"other"};
    assert "claim" !in LateClaim(sw.viewAt) && "other" in LateClaim(sw.viewAt);
    assert LeftBehind(sw.servers[0], LateClaim(sw.viewAt), sw.clock[0], minAge);
    OrphansExact(sw.servers, LateClaim(sw.viewAt), sw.clock, minAge, 1);
    assert 1 in Asked(LateClaim, sw, minAge);
  }

  /**
   * The age floor is the controller's entire safety margin, and exactly this
   * much of one: with claim reads up to `lag` stale, sweeps up to `length` long
   * and creation stamps `skew` behind, no sweep ever deletes a claimed server if
   * and only if reads are current or lag + length + skew fits inside minAge.
   */
  lemma SafetyMarginExact(tm: Timing, minAge: int)
    ensures NeverDeletesClaimed(tm, minAge) <==> tm.lag == 0 || tm.lag + tm.length + tm.skew <= minAge
  {
    if MarginFits(tm, minAge) {
      forall claims: Claims, sw, id | Timely(sw, tm) && ClaimLives(claims, tm, sw, id)
        ensures id !in Asked(claims, sw, minAge)
      {
        SweepSparesClaimed(claims, sw, id, tm, minAge);
      }
    } else {
      MarginTooSmall(tm, minAge);
    }
  }
}
