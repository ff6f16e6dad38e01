/**
 * Who may be destroyed: every way the provider deletes or resets a server
 * (Delete, Reboot, adoption, the create cleanup, the orphan sweep, which deletes
 * through Delete), interleaved with other users of the same Hetzner project.
 *
 * A destructive call is two steps, the live read that gates it and the API
 * call, with anything in between. Lost responses need no step of their own: a
 * create whose answer never arrives still made its server.
 */
module Ownership {
  import opened Common
  import opened Servers
  import opened Request

  datatype Deed = DeleteServer | ResetFor(claim: string)

  /** A destructive call that has passed its gate and not yet been sent. */
  datatype Gate = Gate(id: int, deed: Deed)

  datatype World = World(
    servers: map<int, Server>,
    nextId: int,
    // History: what the provider created and for which claim, what it adopted, what it destroyed.
    made: map<int, string>,
    adopted: set<(int, string)>,
    pending: map<nat, Gate>,
    destroyed: set<(int, Deed)>)

  datatype Step =
    | Create(claim: string, pool: string, extra: map<string, string>, serverType: string, location: string)
    | CreateThenCleanUp(claim: string, pool: string, extra: map<string, string>)
    | Adopt(id: int, claim: string)
    | PassDeleteGate(op: nat, id: int)
    | PassRebootGate(op: nat, id: int, claim: string)
    | Fire(op: nat)
    | ForeignCreate(srv: Server)
    | ForeignRelabel(id: int, labels: map<string, string>)
    | ForeignDelete(id: int)

  /** The server Hetzner makes for an order. */
  function Made(id: int, claim: string, labels: map<string, string>, serverType: string, location: string): Server
  {
    Server(id, claim, serverType, location, "running", labels, 0, None, [], [], 0, false, false)
  }

  predicate Enabled(cluster: string, w: World, step: Step)
  {
    match step
    case Create(_, _, _, _, _) => cluster != ""
    case CreateThenCleanUp(_, _, _) => cluster != ""
    case Adopt(id, claim) =>
      id in w.servers && Ours(w.servers[id], cluster) && Label(w.servers[id].labels, LABEL_NODE_CLAIM) == claim
    case PassDeleteGate(_, id) => id in w.servers && Ours(w.servers[id], cluster)
    case PassRebootGate(_, id, claim) =>
      id in w.servers && Ours(w.servers[id], cluster) && Label(w.servers[id].labels, LABEL_NODE_CLAIM) == claim
    case Fire(op) => op in w.pending
    // Nobody else writes this cluster's ownership label.
    case ForeignCreate(srv) => srv.id == w.nextId && !Ours(srv, cluster)
    case ForeignRelabel(id, labels) =>
      id in w.servers && (Ours(w.servers[id].(labels := labels), cluster) ==> Ours(w.servers[id], cluster))
    case ForeignDelete(id) => id in w.servers
  }

  function Next(cluster: string, w: World, step: Step): World
    requires Enabled(cluster, w, step)
  {
    match step
    case Create(claim, pool, extra, serverType, location) =>
      w.(servers := w.servers[w.nextId := Made(w.nextId, claim, OrderLabels(cluster, claim, pool, extra), serverType, location)],
         made := w.made[w.nextId := claim], nextId := w.nextId + 1)
    case CreateThenCleanUp(claim, _, _) =>
      w.(made := w.made[w.nextId := claim], destroyed := w.destroyed + {(w.nextId, DeleteServer)}, nextId := w.nextId + 1)
    case Adopt(id, claim) => w.(adopted := w.adopted + {(id, claim)})
    case PassDeleteGate(op, id) => w.(pending := w.pending[op := Gate(id, DeleteServer)])
    case PassRebootGate(op, id, claim) => w.(pending := w.pending[op := Gate(id, ResetFor(claim))])
    case Fire(op) =>
      var g := w.pending[op];
      w.(servers := if g.deed.DeleteServer? then w.servers - {g.id} else w.servers,
         destroyed := w.destroyed + {(g.id, g.deed)}, pending := w.pending - {op})
    case ForeignCreate(srv) => w.(servers := w.servers[w.nextId := srv], nextId := w.nextId + 1)
    case ForeignRelabel(id, labels) => w.(servers := w.servers[id := w.servers[id].(labels := labels)])
    case ForeignDelete(id) => w.(servers := w.servers - {id})
  }

  predicate Legal(cluster: string, w: World, steps: seq<Step>)
    decreases |steps|
  {
    steps == [] || (Enabled(cluster, w, steps[0]) && Legal(cluster, Next(cluster, w, steps[0]), steps[1..]))
  }

  function Exec(cluster: string, w: World, steps: seq<Step>): World
    requires Legal(cluster, w, steps)
    decreases |steps|
  {
    if steps == [] then w else Exec(cluster, Next(cluster, w, steps[0]), steps[1..])
  }

  /** A project in which no server claims to be ours yet, and the provider has done nothing. */
  ghost predicate Start(cluster: string, w: World)
  {
    && (forall id | id in w.servers :: id < w.nextId && !Ours(w.servers[id], cluster))
    && w.made == map[] && w.adopted == {} && w.pending == map[] && w.destroyed == {}
  }

  // ---------------------------------------------------------------- only our own

  /** Whatever carries our label, and whatever was adopted, gated or destroyed, is a server we made. */
  ghost predicate Inv(cluster: string, w: World)
  {
    && (forall id | id in w.made :: id < w.nextId)
    && (forall id | id in w.servers :: id < w.nextId)
    && (forall id | id in w.servers && Ours(w.servers[id], cluster) :: id in w.made)
    && (forall a | a in w.adopted :: a.0 in w.made)
    && (forall op | op in w.pending :: w.pending[op].id in w.made)
    && (forall d | d in w.destroyed :: d.0 in w.made)
  }

  lemma NextInv(cluster: string, w: World, step: Step)
    requires Inv(cluster, w) && Enabled(cluster, w, step)
    ensures Inv(cluster, Next(cluster, w, step))
  {
  }

  lemma {:induction false} ExecInv(cluster: string, w: World, steps: seq<Step>)
    requires Inv(cluster, w) && Legal(cluster, w, steps)
    ensures Inv(cluster, Exec(cluster, w, steps))
    decreases |steps|
  {
    if steps != [] {
      NextInv(cluster, w, steps[0]);
      ExecInv(cluster, Next(cluster, w, steps[0]), steps[1..]);
    }
  }

  /**
   * Over any run, every server the provider deletes, resets or adopts is one it
   * created. Operator labels are arbitrary throughout, and others may relabel
   * servers in any way short of writing this cluster's ownership label.
   */
  lemma OnlyOwnServersDestroyed(cluster: string, w: World, steps: seq<Step>)
    requires Start(cluster, w) && Legal(cluster, w, steps)
    ensures var e := Exec(cluster, w, steps);
      (forall d | d in e.destroyed :: d.0 in e.made) && forall a | a in e.adopted :: a.0 in e.made
  {
    ExecInv(cluster, w, steps);
  }

  // ---------------------------------------------------------------- for the right claim

  /** A server labelled ours names the claim it was made for. */
  ghost predicate LabelsTellTheTruth(cluster: string, w: World)
  {
    forall id | id in w.servers && Ours(w.servers[id], cluster) ::
      id in w.made && Label(w.servers[id].labels, LABEL_NODE_CLAIM) == w.made[id]
  }

  /** The step does not rewrite the claim label of a server that stays ours. */
  predicate LeavesClaimLabel(cluster: string, w: World, step: Step)
    requires Enabled(cluster, w, step)
  {
    step.ForeignRelabel? && Ours(w.servers[step.id].(labels := step.labels), cluster) ==>
      Label(step.labels, LABEL_NODE_CLAIM) == Label(w.servers[step.id].labels, LABEL_NODE_CLAIM)
  }

  ghost predicate ClaimLabelsLeft(cluster: string, w: World, steps: seq<Step>)
    requires Legal(cluster, w, steps)
    decreases |steps|
  {
    steps == [] || (LeavesClaimLabel(cluster, w, steps[0]) && ClaimLabelsLeft(cluster, Next(cluster, w, steps[0]), steps[1..]))
  }

  ghost predicate TruthfulThroughout(cluster: string, w: World, steps: seq<Step>)
    requires Legal(cluster, w, steps)
    decreases |steps|
  {
    LabelsTellTheTruth(cluster, w) && (steps != [] ==> TruthfulThroughout(cluster, Next(cluster, w, steps[0]), steps[1..]))
  }

  lemma NextTruthfulIff(cluster: string, w: World, step: Step)
    requires Inv(cluster, w) && LabelsTellTheTruth(cluster, w) && Enabled(cluster, w, step)
    ensures LabelsTellTheTruth(cluster, Next(cluster, w, step)) <==> LeavesClaimLabel(cluster, w, step)
  {
    match step {
      case Create(claim, pool, extra, _, _) => OperatorLabelsCannotDisown(cluster, claim, pool, extra);
      case ForeignRelabel(id, labels) =>
        assert Next(cluster, w, step).servers[id] == w.servers[id].(labels := labels);
      case _ =>
    }
  }

  /** In every run, claim labels tell the truth throughout if and only if nobody rewrites one on a server that stays ours. */
  lemma {:induction false} TruthfulThroughoutIff(cluster: string, w: World, steps: seq<Step>)
    requires Inv(cluster, w) && LabelsTellTheTruth(cluster, w) && Legal(cluster, w, steps)
    ensures TruthfulThroughout(cluster, w, steps) <==> ClaimLabelsLeft(cluster, w, steps)
    decreases |steps|
  {
    if steps != [] {
      NextTruthfulIff(cluster, w, steps[0]);
      NextInv(cluster, w, steps[0]);
      if LeavesClaimLabel(cluster, w, steps[0]) {
        TruthfulThroughoutIff(cluster, Next(cluster, w, steps[0]), steps[1..]);
      } else {
        assert !TruthfulThroughout(cluster, Next(cluster, w, steps[0]), steps[1..]);
      }
    }
  }

  ghost predicate DeedOk(w: World, id: int, deed: Deed)
  {
    deed.ResetFor? ==> id in w.made && w.made[id] == deed.claim
  }

  /** Every reset and adoption, done or gated, is for the claim the server was made for. */
  ghost predicate RightClaims(w: World)
  {
    && (forall a | a in w.adopted :: a.0 in w.made && w.made[a.0] == a.1)
    && (forall op | op in w.pending :: DeedOk(w, w.pending[op].id, w.pending[op].deed))
    && (forall d | d in w.destroyed :: DeedOk(w, d.0, d.1))
  }

  lemma NextRightClaims(cluster: string, w: World, step: Step)
    requires Inv(cluster, w) && LabelsTellTheTruth(cluster, w) && RightClaims(w) && Enabled(cluster, w, step)
    ensures RightClaims(Next(cluster, w, step))
  {
  }

  lemma {:induction false} ExecRightClaims(cluster: string, w: World, steps: seq<Step>)
    requires Inv(cluster, w) && RightClaims(w) && Legal(cluster, w, steps) && TruthfulThroughout(cluster, w, steps)
    ensures RightClaims(Exec(cluster, w, steps))
    decreases |steps|
  {
    if steps != [] {
      NextInv(cluster, w, steps[0]);
      NextRightClaims(cluster, w, steps[0]);
      ExecRightClaims(cluster, Next(cluster, w, steps[0]), steps[1..]);
    }
  }

  /** As long as claim labels are left alone, every reset and adoption hits a server created for the claim it is for. */
  lemma ResetsHitTheirOwnClaim(cluster: string, w: World, steps: seq<Step>)
    requires Start(cluster, w) && Legal(cluster, w, steps) && ClaimLabelsLeft(cluster, w, steps)
    ensures var e := Exec(cluster, w, steps);
      && (forall d | d in e.destroyed && d.1.ResetFor? :: d.0 in e.made && e.made[d.0] == d.1.claim)
      && (forall a | a in e.adopted :: a.0 in e.made && e.made[a.0] == a.1)
  {
    TruthfulThroughoutIff(cluster, w, steps);
    ExecRightClaims(cluster, w, steps);
  }

  /** With no cluster name configured, nothing is ever touched. */
  lemma {:induction false} EmptyClusterNameIsInert(w: World, steps: seq<Step>)
    requires w.pending == map[] && Legal("", w, steps)
    ensures var e := Exec("", w, steps); e.destroyed == w.destroyed && e.made == w.made && e.adopted == w.adopted
    decreases |steps|
  {
    if steps != [] {
      EmptyClusterNameIsInert(Next("", w, steps[0]), steps[1..]);
    }
  }
}
