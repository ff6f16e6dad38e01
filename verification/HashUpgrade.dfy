/**
 * Spec-hash drift across controller upgrades: the hash controller's back-fill
 * (internal/controllers/nodeclass/hash/controller.go), the stamp on the launch
 * path (internal/cloudprovider/cloudprovider.go) and the comparison
 * (internal/cloudprovider/drift.go), as interleaved atomic reads and patches.
 *
 * A spec is an identity and the hash an arbitrary function per generator version.
 */
module HashUpgrade {
  import opened Common

  type Hasher = (nat, int) -> int

  /**
   * A NodeClaim's two annotations, and history: `from` is the spec behind the
   * hash, `built` the spec its server was launched from. `condemned` says that a
   * back-fill moved the version forward but kept the old hash, because the
   * claim already had a Drifted condition.
   */
  datatype Claim = Claim(
    version: Option<nat>, hash: Option<int>, from: int, built: int, launched: bool, drifted: bool, condemned: bool)

  datatype Class = Class(spec: int, version: Option<nat>, hash: Option<int>, from: int)

  /** What the back-fill remembers of a claim it listed. */
  datatype Copy = Copy(hash: Option<int>, drifted: bool)

  /** Where the hash controller's reconcile is, with the spec of the class it read. */
  datatype Phase =
    | Idle
    | Listing(spec: int)
    | Backfill(spec: int, todo: map<string, Copy>, failed: bool)
    | Advance(spec: int)

  /** A hash-drift verdict that was reported: the specs behind the two hashes, and the one the server was built from. */
  datatype Report = Report(classFrom: int, claimFrom: int, built: int, condemned: bool)

  /**
   * `launches` holds the spec each Create under way has read, `servers` the spec
   * behind each server that exists at Hetzner under a claim's name, whether or
   * not the Create that ordered it ever learned of it.
   */
  datatype State = State(
    running: nat, cls: Class, claims: map<string, Claim>,
    launches: map<string, int>, servers: map<string, int>, checks: map<string, Claim>, phase: Phase,
    reports: set<Report>)

  datatype Step =
    | NewClaim(name: string)
    | DeleteClaim(name: string)
    | StartLaunch(name: string)
    | OrderServer(name: string)
    | RemoveServer(name: string)
    | FinishLaunch(name: string)
    | StartReconcile
    | ListClaims
    | PatchClaim(name: string, ok: bool)
    | FinishBackfill
    | AdvanceClass(ok: bool)
    | GiveUp
    | Restart(version: nat)
    | EditSpec(spec: int)
    | SetDrifted(name: string, drifted: bool)
    | ReadForDrift(name: string)
    | Judge(name: string)

  // ---------------------------------------------------------------- the pieces

  /**
   * One back-fill patch. It is a merge patch against the listed copy, so the
   * hash is written only if the copy's differs, and never on a drifted copy.
   */
  function Patched(h: Hasher, running: nat, spec: int, copy: Copy, c: Claim): Claim
  {
    var want := h(running, spec);
    if copy.drifted then c.(version := Some(running), condemned := c.condemned || c.version != Some(running))
    else if copy.hash != Some(want) then c.(version := Some(running), hash := Some(want), from := spec, condemned := false)
    else if c.hash == Some(want) then c.(version := Some(running), from := spec, condemned := false)
    else c.(version := Some(running))
  }

  /**
   * toNodeClaim stamps what this Create read of the class, with the running
   * generator, on the server it made or, by name, on the one an earlier Create
   * made for the same claim.
   */
  function Stamped(h: Hasher, running: nat, spec: int, built: int, c: Claim): Claim
  {
    c.(version := Some(running), hash := Some(h(running, spec)), from := spec, built := built, launched := true, condemned := false)
  }

  function ToPatch(running: nat, claims: map<string, Claim>): map<string, Copy>
  {
    map n | n in claims && claims[n].version != Some(running) :: Copy(claims[n].hash, claims[n].drifted)
  }

  /** nodeClassHashDrift: judged only when both sides carry the running version and a hash. */
  predicate Judged(running: nat, cls: Class, c: Claim)
  {
    cls.version == Some(running) && c.version == Some(running) && cls.hash.Some? && c.hash.Some?
  }

  predicate HashDrift(running: nat, cls: Class, c: Claim)
  {
    Judged(running, cls, c) && cls.hash != c.hash
  }

  // ---------------------------------------------------------------- the protocol

  predicate Enabled(s: State, step: Step)
  {
    match step
    case NewClaim(n) => n !in s.claims
    case DeleteClaim(n) => n in s.claims
    case StartLaunch(n) => n in s.claims && !s.claims[n].launched
    case OrderServer(n) => n in s.launches && n !in s.servers
    case RemoveServer(n) => n in s.servers
    case FinishLaunch(n) => n in s.claims && !s.claims[n].launched && n in s.launches && n in s.servers
    case StartReconcile => s.phase.Idle?
    case ListClaims => s.phase.Listing?
    case PatchClaim(n, _) => s.phase.Backfill? && n in s.phase.todo
    case FinishBackfill => s.phase.Backfill? && s.phase.todo == map[]
    case AdvanceClass(_) => s.phase.Advance?
    case SetDrifted(n, _) => n in s.claims && s.claims[n].launched
    case ReadForDrift(n) => n in s.claims && s.claims[n].launched
    case Judge(n) => n in s.checks
    case GiveUp | Restart(_) | EditSpec(_) => true
  }

  function Next(h: Hasher, s: State, step: Step): State
    requires Enabled(s, step)
  {
    match step
    case NewClaim(n) => s.(claims := s.claims[n := Claim(None, None, 0, 0, false, false, false)])
    case DeleteClaim(n) => s.(claims := s.claims - {n}, launches := s.launches - {n})
    case StartLaunch(n) => s.(launches := s.launches[n := s.cls.spec])
    case OrderServer(n) => s.(servers := s.servers[n := s.launches[n]])
    case RemoveServer(n) => s.(servers := s.servers - {n})
    case FinishLaunch(n) =>
      s.(claims := s.claims[n := Stamped(h, s.running, s.launches[n], s.servers[n], s.claims[n])], launches := s.launches - {n})
    case StartReconcile =>
      s.(phase := if s.cls.version != Some(s.running) then Listing(s.cls.spec) else Advance(s.cls.spec))
    case ListClaims => s.(phase := Backfill(s.phase.spec, ToPatch(s.running, s.claims), false))
    case PatchClaim(n, ok) =>
      var p := s.phase;
      var rest := s.(phase := Backfill(p.spec, p.todo - {n}, p.failed || !ok));
      if ok && n in s.claims
      then rest.(claims := s.claims[n := Patched(h, s.running, p.spec, p.todo[n], s.claims[n])])
      else rest
    case FinishBackfill => s.(phase := if s.phase.failed then Idle else Advance(s.phase.spec))
    case AdvanceClass(ok) =>
      var spec := s.phase.spec;
      s.(phase := Idle,
         cls := if ok then s.cls.(version := Some(s.running), hash := Some(h(s.running, spec)), from := spec) else s.cls)
    case GiveUp => s.(phase := Idle)
    case Restart(v) => s.(running := v, phase := Idle, launches := map[], checks := map[])
    case EditSpec(spec) => s.(cls := s.cls.(spec := spec))
    case SetDrifted(n, d) => s.(claims := s.claims[n := s.claims[n].(drifted := d)])
    case ReadForDrift(n) => s.(checks := s.checks[n := s.claims[n]])
    case Judge(n) =>
      var c := s.checks[n];
      s.(checks := s.checks - {n},
         reports := if HashDrift(s.running, s.cls, c) then s.reports + {Report(s.cls.from, c.from, c.built, c.condemned)} else s.reports)
  }

  predicate Legal(h: Hasher, s: State, steps: seq<Step>)
    decreases |steps|
  {
    steps == [] || (Enabled(s, steps[0]) && Legal(h, Next(h, s, steps[0]), steps[1..]))
  }

  function Exec(h: Hasher, s: State, steps: seq<Step>): State
    requires Legal(h, s, steps)
    decreases |steps|
  {
    if steps == [] then s else Exec(h, Next(h, s, steps[0]), steps[1..])
  }

  /** The back-fill takes on exactly the claims that do not carry the running version, as they were when listed. */
  lemma BackfillTakesOn(h: Hasher, s: State, n: string)
    requires Enabled(s, ListClaims)
    ensures var todo := Next(h, s, ListClaims).phase.todo;
      && (n in todo <==> n in s.claims && (s.claims[n].version.None? || s.claims[n].version.value != s.running))
      && (n in todo ==> todo[n].hash == s.claims[n].hash && todo[n].drifted == s.claims[n].drifted)
  {
  }

  // ---------------------------------------------------------------- hashes mean what they say

  ghost predicate ClassCoherent(h: Hasher, cls: Class)
  {
    cls.version.Some? && cls.hash.Some? ==> cls.hash.value == h(cls.version.value, cls.from)
  }

  ghost predicate ClaimCoherent(h: Hasher, c: Claim)
  {
    c.version.Some? && c.hash.Some? && !c.condemned ==> c.hash.value == h(c.version.value, c.from)
  }

  /** A claim still on the back-fill's list has not been re-hashed since it was listed, except by a launch. */
  ghost predicate CopyCurrent(s: State, n: string, copy: Copy)
  {
    n in s.claims ==>
      s.claims[n].hash == copy.hash || s.claims[n].hash.None? || s.claims[n].version == Some(s.running)
  }

  ghost predicate Coherent(h: Hasher, s: State)
  {
    && ClassCoherent(h, s.cls)
    && (forall n | n in s.claims :: ClaimCoherent(h, s.claims[n]))
    && (forall n | n in s.checks :: ClaimCoherent(h, s.checks[n]))
    && (s.phase.Backfill? ==> forall n | n in s.phase.todo :: CopyCurrent(s, n, s.phase.todo[n]))
    && (forall r | r in s.reports :: r.classFrom != r.claimFrom || r.condemned)
  }

  lemma PatchCoherent(h: Hasher, running: nat, spec: int, copy: Copy, c: Claim)
    requires ClaimCoherent(h, c)
    requires c.hash == copy.hash || c.hash.None? || c.version == Some(running)
    ensures ClaimCoherent(h, Patched(h, running, spec, copy, c))
  {
  }

  lemma NextClaimsCoherent(h: Hasher, s: State, step: Step)
    requires Coherent(h, s) && Enabled(s, step)
    ensures var t := Next(h, s, step); forall n | n in t.claims :: ClaimCoherent(h, t.claims[n])
  {
    match step {
      case PatchClaim(n, ok) =>
        if ok && n in s.claims {
          PatchCoherent(h, s.running, s.phase.spec, s.phase.todo[n], s.claims[n]);
        }
      case _ =>
    }
  }

  lemma NextCopiesCurrent(h: Hasher, s: State, step: Step)
    requires Coherent(h, s) && Enabled(s, step)
    ensures var t := Next(h, s, step); t.phase.Backfill? ==> forall n | n in t.phase.todo :: CopyCurrent(t, n, t.phase.todo[n])
  {
  }

  lemma NextCoherent(h: Hasher, s: State, step: Step)
    requires Coherent(h, s) && Enabled(s, step)
    ensures Coherent(h, Next(h, s, step))
  {
    NextClaimsCoherent(h, s, step);
    NextCopiesCurrent(h, s, step);
  }

  lemma {:induction false} ExecCoherent(h: Hasher, s: State, steps: seq<Step>)
    requires Coherent(h, s) && Legal(h, s, steps)
    ensures Coherent(h, Exec(h, s, steps))
    decreases |steps|
  {
    if steps != [] {
      NextCoherent(h, s, steps[0]);
      ExecCoherent(h, Next(h, s, steps[0]), steps[1..]);
    }
  }

  /** A cluster whose annotations, if any, were produced by some version from some spec; nothing in flight. */
  ghost predicate Start(h: Hasher, s: State)
  {
    && s.phase.Idle? && s.launches == map[] && s.checks == map[] && s.reports == {}
    && ClassCoherent(h, s.cls) && (forall n | n in s.claims :: ClaimCoherent(h, s.claims[n]) && !s.claims[n].condemned)
  }

  /**
   * Through spec edits, launches, upgrades, rollbacks, crashes and partial
   * back-fills in any order: every reported hash drift is between hashes of two
   * different specs, unless the claim was already condemned when back-filled.
   * And wherever drift is willing to judge an uncondemned claim, its verdict is
   * exactly whether the running generator tells the two specs apart. The claim's
   * spec here is the one behind its hash, which a back-fill may have replaced:
   * `VerdictIsAboutTheServer` says when it is the spec the server was built from.
   */
  lemma ReportMeansSpecChanged(h: Hasher, s: State, steps: seq<Step>, n: string)
    requires Start(h, s) && Legal(h, s, steps)
    ensures forall r | r in Exec(h, s, steps).reports :: r.classFrom != r.claimFrom || r.condemned
    ensures var t := Exec(h, s, steps);
      n in t.claims && Judged(t.running, t.cls, t.claims[n]) && !t.claims[n].condemned ==>
        (HashDrift(t.running, t.cls, t.claims[n]) <==> h(t.running, t.cls.from) != h(t.running, t.claims[n].from))
  {
    ExecCoherent(h, s, steps);
  }

  // ---------------------------------------------------------------- an unchanged spec never drifts

  /** Every hash anywhere in the system was made from `spec`. */
  ghost predicate OneSpec(s: State, spec: int)
  {
    && s.cls.spec == spec && (s.cls.hash.Some? ==> s.cls.from == spec)
    && ClaimsOf(s, spec)
    && (forall n | n in s.checks && s.checks[n].hash.Some? :: s.checks[n].from == spec)
    && (forall n | n in s.launches :: s.launches[n] == spec)
    && (!s.phase.Idle? ==> s.phase.spec == spec)
    && (forall r | r in s.reports :: r.classFrom == r.claimFrom)
  }

  ghost predicate ClaimsOf(s: State, spec: int)
  {
    forall n | n in s.claims && s.claims[n].hash.Some? :: s.claims[n].from == spec
  }

  ghost predicate NoEdits(steps: seq<Step>)
  {
    forall i | 0 <= i < |steps| :: !steps[i].EditSpec?
  }

  lemma NextClaimsOf(h: Hasher, s: State, step: Step, spec: int)
    requires OneSpec(s, spec) && Enabled(s, step) && !step.EditSpec?
    ensures ClaimsOf(Next(h, s, step), spec)
  {
  }

  lemma NextOneSpec(h: Hasher, s: State, step: Step, spec: int)
    requires OneSpec(s, spec) && Enabled(s, step) && !step.EditSpec?
    ensures OneSpec(Next(h, s, step), spec)
  {
    NextClaimsOf(h, s, step, spec);
  }

  lemma {:induction false} ExecOneSpec(h: Hasher, s: State, steps: seq<Step>, spec: int)
    requires OneSpec(s, spec) && Legal(h, s, steps) && NoEdits(steps)
    ensures OneSpec(Exec(h, s, steps), spec)
    decreases |steps|
  {
    if steps != [] {
      NextOneSpec(h, s, steps[0], spec);
      assert NoEdits(steps[1..]) by {
        assert forall i | 0 <= i < |steps[1..]| :: steps[1..][i] == steps[i + 1];
      }
      ExecOneSpec(h, Next(h, s, steps[0]), steps[1..], spec);
    }
  }

  /**
   * A controller upgrade does not roll the fleet: with the spec left alone, no
   * interleaving of upgrades, rollbacks, restarts, failed patches, launches and
   * drift checks reports a claim that was not condemned when back-filled.
   */
  lemma UpgradeNeverDrifts(h: Hasher, s: State, steps: seq<Step>)
    requires Start(h, s) && OneSpec(s, s.cls.spec) && Legal(h, s, steps) && NoEdits(steps)
    ensures forall r | r in Exec(h, s, steps).reports :: r.condemned
  {
    ExecCoherent(h, s, steps);
    ExecOneSpec(h, s, steps, s.cls.spec);
  }

  // ---------------------------------------------------------------- the spec a server was built from

  /** Every uncondemned hash on a launched claim is of the spec its server was built from. */
  ghost predicate Attributed(s: State)
  {
    && (forall n | n in s.claims :: OwnHash(s.claims[n]))
    && (forall n | n in s.checks :: OwnHash(s.checks[n]))
  }

  predicate OwnHash(c: Claim)
  {
    c.launched && c.hash.Some? && !c.condemned ==> c.from == c.built
  }

  /** The patch leaves the claim with the hash of the spec the reconcile read. */
  predicate Restamps(h: Hasher, running: nat, spec: int, copy: Copy, c: Claim)
  {
    !copy.drifted && (copy.hash != Some(h(running, spec)) || c.hash == Some(h(running, spec)))
  }

  /** A back-fill patch that does not put another spec's hash on a running server. */
  predicate FaithfulPatch(h: Hasher, s: State, step: Step)
    requires Enabled(s, step)
  {
    step.PatchClaim? && step.ok && step.name in s.claims && s.claims[step.name].launched
    && Restamps(h, s.running, s.phase.spec, s.phase.todo[step.name], s.claims[step.name])
    ==> s.claims[step.name].built == s.phase.spec
  }

  /** A Create that returns a server ordered from the very spec it read: its own, or one adopted with no edit in between. */
  predicate FaithfulLaunch(s: State, step: Step)
    requires Enabled(s, step)
  {
    step.FinishLaunch? ==> s.servers[step.name] == s.launches[step.name]
  }

  ghost predicate Faithful(h: Hasher, s: State, steps: seq<Step>)
    requires Legal(h, s, steps)
    decreases |steps|
  {
    steps == [] ||
    (FaithfulPatch(h, s, steps[0]) && FaithfulLaunch(s, steps[0]) && Faithful(h, Next(h, s, steps[0]), steps[1..]))
  }

  ghost predicate AttributedThroughout(h: Hasher, s: State, steps: seq<Step>)
    requires Legal(h, s, steps)
    decreases |steps|
  {
    Attributed(s) && (steps != [] ==> AttributedThroughout(h, Next(h, s, steps[0]), steps[1..]))
  }

  lemma NextAttributedIff(h: Hasher, s: State, step: Step)
    requires Attributed(s) && Enabled(s, step)
    ensures Attributed(Next(h, s, step)) <==> FaithfulPatch(h, s, step) && FaithfulLaunch(s, step)
  {
    if !(FaithfulPatch(h, s, step) && FaithfulLaunch(s, step)) {
      assert !OwnHash(Next(h, s, step).claims[step.name]);
    }
  }

  /**
   * In every run, every hash stays about its own server if and only if every
   * applied back-fill patch finds its claim built from the very spec it stamps,
   * and every Create returns a server ordered from the very spec it read: neither
   * an upgrade nor an adoption may meet an edit made since the server was ordered.
   */
  lemma {:induction false} AttributedThroughoutIff(h: Hasher, s: State, steps: seq<Step>)
    requires Attributed(s) && Legal(h, s, steps)
    ensures AttributedThroughout(h, s, steps) <==> Faithful(h, s, steps)
    decreases |steps|
  {
    if steps != [] {
      NextAttributedIff(h, s, steps[0]);
      if FaithfulPatch(h, s, steps[0]) && FaithfulLaunch(s, steps[0]) {
        AttributedThroughoutIff(h, Next(h, s, steps[0]), steps[1..]);
      } else {
        assert !AttributedThroughout(h, Next(h, s, steps[0]), steps[1..]);
      }
    }
  }

  ghost predicate ReportsOwn(s: State)
  {
    Attributed(s) && forall r | r in s.reports :: r.condemned || r.claimFrom == r.built
  }

  lemma {:induction false} ExecReportsOwn(h: Hasher, s: State, steps: seq<Step>)
    requires ReportsOwn(s) && (forall n | n in s.checks :: s.checks[n].launched)
    requires Legal(h, s, steps) && Faithful(h, s, steps)
    ensures ReportsOwn(Exec(h, s, steps))
    decreases |steps|
  {
    if steps != [] {
      NextAttributedIff(h, s, steps[0]);
      NextReportsOwn(h, s, steps[0]);
      ExecReportsOwn(h, Next(h, s, steps[0]), steps[1..]);
    }
  }

  lemma NextReportsOwn(h: Hasher, s: State, step: Step)
    requires ReportsOwn(s) && (forall n | n in s.checks :: s.checks[n].launched) && Enabled(s, step)
    ensures var t := Next(h, s, step);
      (forall r | r in t.reports :: r.condemned || r.claimFrom == r.built) && forall n | n in t.checks :: t.checks[n].launched
  {
  }

  /**
   * Under that condition the verdict is about the server: a judged, uncondemned
   * claim drifts exactly when the generator tells the class's spec from the one
   * the server was built from, and so does every report ever made.
   */
  lemma VerdictIsAboutTheServer(h: Hasher, s: State, steps: seq<Step>, n: string)
    requires Start(h, s) && Attributed(s) && Legal(h, s, steps) && Faithful(h, s, steps)
    ensures forall r | r in Exec(h, s, steps).reports :: r.condemned || r.classFrom != r.built
    ensures var t := Exec(h, s, steps);
      n in t.claims && t.claims[n].launched && Judged(t.running, t.cls, t.claims[n]) && !t.claims[n].condemned ==>
        (HashDrift(t.running, t.cls, t.claims[n]) <==> h(t.running, t.cls.from) != h(t.running, t.claims[n].built))
  {
    ExecCoherent(h, s, steps);
    ExecReportsOwn(h, s, steps);
  }

  lemma ExecCons(h: Hasher, s: State, step: Step, rest: seq<Step>)
    requires Enabled(s, step) && Legal(h, Next(h, s, step), rest)
    ensures Legal(h, s, [step] + rest) && Exec(h, s, [step] + rest) == Exec(h, Next(h, s, step), rest)
  {
    assert ([step] + rest)[1..] == rest;
  }

  lemma {:induction false} ExecAppend(h: Hasher, s: State, a: seq<Step>, b: seq<Step>)
    requires Legal(h, s, a) && Legal(h, Exec(h, s, a), b)
    ensures Legal(h, s, a + b) && Exec(h, s, a + b) == Exec(h, Exec(h, s, a), b)
    decreases |a|
  {
    if a == [] {
      assert a + b == b;
    } else {
      assert (a + b)[1..] == a[1..] + b;
      ExecAppend(h, Next(h, s, a[0]), a[1..], b);
    }
  }

  /** One claim launched from spec 0 by generator 1, and a class settled on the same. */
  function Settled(h: Hasher): State
  {
    State(1, Class(0, Some(1), Some(h(1, 0)), 0), map["a" := Claim(Some(1), Some(h(1, 0)), 0, 0, true, false, false)],
          map[], map["a" := 0], map[], Idle, {})
  }

  /** The claim and the class after an edit to spec 1 and an upgrade to generator 2, both complete. */
  function Swallowed(h: Hasher): State
  {
    State(2, Class(1, Some(2), Some(h(2, 1)), 1), map["a" := Claim(Some(2), Some(h(2, 1)), 1, 0, true, false, false)],
          map[], map["a" := 0], map[], Idle, {})
  }

  lemma UpgradeOverEdit(h: Hasher) returns (steps: seq<Step>)
    ensures Legal(h, Settled(h), steps) && Exec(h, Settled(h), steps) == Swallowed(h)
  {
    var s0 := Settled(h);
    var s1 := Next(h, s0, EditSpec(1));
    var s2 := Next(h, s1, Restart(2));
    var s3 := Next(h, s2, StartReconcile);
    var s4 := Next(h, s3, ListClaims);
    assert s4.phase.todo == map["a" := Copy(Some(h(1, 0)), false)];
    var s5 := Next(h, s4, PatchClaim("a", true));
    var s6 := Next(h, s5, FinishBackfill);
    assert Next(h, s6, AdvanceClass(true)) == Swallowed(h);
    steps := [AdvanceClass(true)] + [];
    ExecCons(h, s6, AdvanceClass(true), []);
    ExecCons(h, s5, FinishBackfill, steps);
    steps := [FinishBackfill] + steps;
    ExecCons(h, s4, PatchClaim("a", true), steps);
    steps := [PatchClaim("a", true)] + steps;
    ExecCons(h, s3, ListClaims, steps);
    steps := [ListClaims] + steps;
    ExecCons(h, s2, StartReconcile, steps);
    steps := [StartReconcile] + steps;
    ExecCons(h, s1, Restart(2), steps);
    steps := [Restart(2)] + steps;
    ExecCons(h, s0, EditSpec(1), steps);
    steps := [EditSpec(1)] + steps;
  }

  /**
   * An edit and an upgrade rolled out together: the back-fill re-stamps the
   * claim with the edited spec's hash, and the server built from the old spec
   * is judged up to date.
   */
  lemma EditSwallowedByUpgrade(h: Hasher) returns (steps: seq<Step>)
    requires h(2, 0) != h(2, 1)
    ensures Start(h, Settled(h)) && Attributed(Settled(h)) && Legal(h, Settled(h), steps)
    ensures var t := Exec(h, Settled(h), steps);
      && "a" in t.claims && t.claims["a"].built == 0 && t.cls.from == t.cls.spec == 1
      && Judged(t.running, t.cls, t.claims["a"]) && !t.claims["a"].condemned
      && !HashDrift(t.running, t.cls, t.claims["a"]) && h(t.running, t.cls.from) != h(t.running, t.claims["a"].built)
    ensures !Faithful(h, Settled(h), steps)
  {
    steps := UpgradeOverEdit(h);
    if Faithful(h, Settled(h), steps) {
      VerdictIsAboutTheServer(h, Settled(h), steps, "a");
    }
  }

  /** A claim nobody has launched yet, under a class settled on spec 0. */
  function Unlaunched(h: Hasher): State
  {
    Settled(h).(claims := map["a" := Claim(None, None, 0, 0, false, false, false)], servers := map[])
  }

  /** Its server made from spec 0 by a create whose answer was lost, and the class since edited to spec 1. */
  function LostThenEdited(h: Hasher): State
  {
    Unlaunched(h).(cls := Class(1, Some(1), Some(h(1, 1)), 1), launches := map["a" := 0], servers := map["a" := 0])
  }

  lemma LoseThenEdit(h: Hasher) returns (steps: seq<Step>)
    ensures Legal(h, Unlaunched(h), steps) && Exec(h, Unlaunched(h), steps) == LostThenEdited(h)
    ensures forall step | step in steps :: !step.PatchClaim?
  {
    var s0 := Unlaunched(h);
    var s1 := Next(h, s0, StartLaunch("a"));
    var s2 := Next(h, s1, OrderServer("a"));
    var s3 := Next(h, s2, EditSpec(1));
    var s4 := Next(h, s3, StartReconcile);
    assert Next(h, s4, AdvanceClass(true)) == LostThenEdited(h);
    steps := [AdvanceClass(true)] + [];
    ExecCons(h, s4, AdvanceClass(true), []);
    ExecCons(h, s3, StartReconcile, steps);
    steps := [StartReconcile] + steps;
    ExecCons(h, s2, EditSpec(1), steps);
    steps := [EditSpec(1)] + steps;
    ExecCons(h, s1, OrderServer("a"), steps);
    steps := [OrderServer("a")] + steps;
    ExecCons(h, s0, StartLaunch("a"), steps);
    steps := [StartLaunch("a")] + steps;
  }

  lemma AdoptEdited(h: Hasher) returns (steps: seq<Step>)
    ensures Legal(h, LostThenEdited(h), steps) && forall step | step in steps :: !step.PatchClaim?
    ensures Exec(h, LostThenEdited(h), steps) ==
      LostThenEdited(h).(claims := map["a" := Claim(Some(1), Some(h(1, 1)), 1, 0, true, false, false)], launches := map[])
  {
    var s0 := LostThenEdited(h);
    var s1 := Next(h, s0, StartLaunch("a"));
    var s2 := Next(h, s1, FinishLaunch("a"));
    assert s2.launches == map[];
    steps := [FinishLaunch("a")] + [];
    ExecCons(h, s1, FinishLaunch("a"), []);
    ExecCons(h, s0, StartLaunch("a"), steps);
    steps := [StartLaunch("a")] + steps;
  }

  /**
   * The other way, with no back-fill in it: a create whose answer is lost, an
   * edit, and a retry that adopts the server made from the old spec and stamps
   * it with the new one's hash.
   */
  lemma EditSwallowedByAdoption(h: Hasher) returns (steps: seq<Step>)
    requires h(1, 0) != h(1, 1)
    ensures Start(h, Unlaunched(h)) && Attributed(Unlaunched(h)) && Legal(h, Unlaunched(h), steps)
    ensures forall step | step in steps :: !step.PatchClaim?
    ensures var t := Exec(h, Unlaunched(h), steps);
      && "a" in t.claims && t.claims["a"].launched && t.claims["a"].built == 0 && t.cls.from == t.cls.spec == 1
      && Judged(t.running, t.cls, t.claims["a"]) && !t.claims["a"].condemned
      && !HashDrift(t.running, t.cls, t.claims["a"]) && h(t.running, t.cls.from) != h(t.running, t.claims["a"].built)
    ensures !Faithful(h, Unlaunched(h), steps)
  {
    var a := LoseThenEdit(h);
    var b := AdoptEdited(h);
    ExecAppend(h, Unlaunched(h), a, b);
    steps := a + b;
    if Faithful(h, Unlaunched(h), steps) {
      VerdictIsAboutTheServer(h, Unlaunched(h), steps, "a");
    }
  }

  lemma RevertThenJudge(h: Hasher) returns (steps: seq<Step>)
    requires h(2, 0) != h(2, 1)
    ensures Legal(h, Swallowed(h), steps)
    ensures Report(0, 1, 0, false) in Exec(h, Swallowed(h), steps).reports
  {
    var s0 := Swallowed(h);
    var s1 := Next(h, s0, EditSpec(0));
    var s2 := Next(h, s1, StartReconcile);
    var s3 := Next(h, s2, AdvanceClass(true));
    var s4 := Next(h, s3, ReadForDrift("a"));
    assert s4.checks["a"].hash == Some(h(2, 1)) && s4.cls.hash == Some(h(2, 0));
    steps := [Judge("a")] + [];
    ExecCons(h, s4, Judge("a"), []);
    ExecCons(h, s3, ReadForDrift("a"), steps);
    steps := [ReadForDrift("a")] + steps;
    ExecCons(h, s2, AdvanceClass(true), steps);
    steps := [AdvanceClass(true)] + steps;
    ExecCons(h, s1, StartReconcile, steps);
    steps := [StartReconcile] + steps;
    ExecCons(h, s0, EditSpec(0), steps);
    steps := [EditSpec(0)] + steps;
  }

  /** And once that edit is reverted, a server built from exactly the current spec is reported as drifted. */
  lemma RevertedEditDrifts(h: Hasher) returns (steps: seq<Step>)
    requires h(2, 0) != h(2, 1)
    ensures Legal(h, Settled(h), steps)
    ensures exists r :: r in Exec(h, Settled(h), steps).reports && r.classFrom == r.built && !r.condemned
  {
    var a := UpgradeOverEdit(h);
    var b := RevertThenJudge(h);
    ExecAppend(h, Settled(h), a, b);
    steps := a + b;
    assert Report(0, 1, 0, false) in Exec(h, Settled(h), steps).reports;
  }

  // ---------------------------------------------------------------- back-fill before advance

  predicate Current(s: State, c: Claim)
  {
    c.version.None? || c.version == Some(s.running)
  }

  /** Where the class carries the running version every stamped claim does too, so drift is blind to none of them. */
  ghost predicate Sighted(s: State)
  {
    s.cls.version == Some(s.running) ==> forall n | n in s.claims :: Current(s, s.claims[n])
  }

  ghost predicate Ordered(s: State)
  {
    && Sighted(s)
    && (s.phase.Advance? ==> forall n | n in s.claims :: Current(s, s.claims[n]))
    && BackfillOnCourse(s)
  }

  /** Unless a patch has failed, whatever the back-fill has left behind it is current. */
  ghost predicate BackfillOnCourse(s: State)
  {
    s.phase.Backfill? && !s.phase.failed ==> forall n | n in s.claims && n !in s.phase.todo :: Current(s, s.claims[n])
  }

  /** What an operator can check before starting generator `v`: the class does not carry `v` while some stamped claim does not. */
  predicate SafeRestart(s: State, v: nat)
  {
    s.cls.version == Some(v) ==> forall n | n in s.claims :: s.claims[n].version.None? || s.claims[n].version == Some(v)
  }

  lemma NextSighted(h: Hasher, s: State, step: Step)
    requires Ordered(s) && Enabled(s, step) && (step.Restart? ==> SafeRestart(s, step.version))
    ensures Sighted(Next(h, s, step))
  {
  }

  lemma NextOnCourse(h: Hasher, s: State, step: Step)
    requires Ordered(s) && Enabled(s, step)
    ensures BackfillOnCourse(Next(h, s, step))
  {
  }

  lemma NextOrdered(h: Hasher, s: State, step: Step)
    requires Ordered(s) && Enabled(s, step) && (step.Restart? ==> SafeRestart(s, step.version))
    ensures Ordered(Next(h, s, step))
  {
    NextSighted(h, s, step);
    NextOnCourse(h, s, step);
  }

  ghost predicate RestartsSafe(h: Hasher, s: State, steps: seq<Step>)
    requires Legal(h, s, steps)
    decreases |steps|
  {
    steps == [] ||
    ((steps[0].Restart? ==> SafeRestart(s, steps[0].version)) && RestartsSafe(h, Next(h, s, steps[0]), steps[1..]))
  }

  ghost predicate SightedThroughout(h: Hasher, s: State, steps: seq<Step>)
    requires Legal(h, s, steps)
    decreases |steps|
  {
    Sighted(s) && (steps != [] ==> SightedThroughout(h, Next(h, s, steps[0]), steps[1..]))
  }

  lemma UnsafeRestartBlinds(h: Hasher, s: State, v: nat)
    requires !SafeRestart(s, v)
    ensures !Sighted(Next(h, s, Restart(v)))
  {
  }

  lemma {:induction false} OrderedRunIff(h: Hasher, s: State, steps: seq<Step>)
    requires Ordered(s) && Legal(h, s, steps)
    ensures SightedThroughout(h, s, steps) <==> RestartsSafe(h, s, steps)
    decreases |steps|
  {
    if steps != [] {
      if steps[0].Restart? && !SafeRestart(s, steps[0].version) {
        UnsafeRestartBlinds(h, s, steps[0].version);
        assert !SightedThroughout(h, Next(h, s, steps[0]), steps[1..]);
      } else {
        NextOrdered(h, s, steps[0]);
        OrderedRunIff(h, Next(h, s, steps[0]), steps[1..]);
      }
    }
  }

  /**
   * Claims first, class last. In every run from a cluster that starts that way,
   * the class at the running version means every stamped claim is too, at every
   * moment, if and only if every restart is safe where it happens. A rollback
   * after a completed upgrade is safe: the class then carries another version
   * and the back-fill runs again.
   */
  lemma SightedThroughoutIff(h: Hasher, s: State, steps: seq<Step>)
    requires Start(h, s) && Legal(h, s, steps)
    ensures SightedThroughout(h, s, steps) <==> Sighted(s) && RestartsSafe(h, s, steps)
  {
    if Sighted(s) {
      OrderedRunIff(h, s, steps);
    }
  }

  /** Restarts only ever move to the same or a newer generator. */
  ghost predicate Upgrades(h: Hasher, s: State, steps: seq<Step>)
    requires Legal(h, s, steps)
    decreases |steps|
  {
    steps == [] ||
    ((steps[0].Restart? ==> s.running <= steps[0].version) && Upgrades(h, Next(h, s, steps[0]), steps[1..]))
  }

  /** In particular upgrades are always safe, for a class no newer than the generator that starts on it. */
  lemma {:induction false} UpgradesAreSafe(h: Hasher, s: State, steps: seq<Step>)
    requires Ordered(s) && Legal(h, s, steps) && Upgrades(h, s, steps)
    requires s.cls.version.Some? ==> s.cls.version.value <= s.running
    ensures RestartsSafe(h, s, steps)
    decreases |steps|
  {
    if steps != [] {
      NextOrdered(h, s, steps[0]);
      UpgradesAreSafe(h, Next(h, s, steps[0]), steps[1..]);
    }
  }

  /**
   * An upgrade that patches the claim and is rolled back before the class
   * advances: the old generator finds its own version on the class, starts no
   * back-fill, and leaves the re-stamped claim unjudged.
   */
  lemma RolledBackMidway(h: Hasher) returns (steps: seq<Step>)
    ensures Legal(h, Settled(h), steps)
    ensures var t := Exec(h, Settled(h), steps);
      && t.running == 1 && t.cls == Settled(h).cls && t.phase.Idle?
      && "a" in t.claims && t.claims["a"].version == Some(2) && !Sighted(t)
  {
    var s0 := Settled(h);
    var s1 := Next(h, s0, Restart(2));
    var s2 := Next(h, s1, StartReconcile);
    var s3 := Next(h, s2, ListClaims);
    assert "a" in s3.phase.todo;
    var s4 := Next(h, s3, PatchClaim("a", true));
    steps := [Restart(1)] + [];
    ExecCons(h, s4, Restart(1), []);
    ExecCons(h, s3, PatchClaim("a", true), steps);
    steps := [PatchClaim("a", true)] + steps;
    ExecCons(h, s2, ListClaims, steps);
    steps := [ListClaims] + steps;
    ExecCons(h, s1, StartReconcile, steps);
    steps := [StartReconcile] + steps;
    ExecCons(h, s0, Restart(2), steps);
    steps := [Restart(2)] + steps;
    assert Exec(h, s0, steps).claims["a"].version == Some(2);
  }

  // ---------------------------------------------------------------- the reconcile loop

  datatype Outcome = Applied | Gone | Failed

  /** The API objects one reconcile touches. */
  class Store {
    var cls: Class
    var claims: map<string, Claim>

    constructor (cls: Class, claims: map<string, Claim>)
      ensures this.cls == cls && this.claims == claims
    {
      this.cls, this.claims := cls, claims;
    }

    /** Claim `n` after the loop: patched if it was behind and its patch went through. */
    static ghost function After(h: Hasher, running: nat, spec: int, c: Claim, o: Outcome): Claim
    {
      if c.version == Some(running) || !o.Applied? then c
      else Patched(h, running, spec, Copy(c.hash, c.drifted), c)
    }

    /** backfillNodeClaimHashes: every listed claim is attempted, and one failure is enough to report one. */
    method BackfillNodeClaimHashes(h: Hasher, running: nat, listed: seq<string>, outcome: string -> Outcome)
      returns (failed: bool)
      requires Distinct(listed) && forall n | n in listed :: n in claims
      modifies this`claims
      ensures claims.Keys == old(claims).Keys
      ensures forall n | n in claims ::
        claims[n] == if n in listed then After(h, running, cls.spec, old(claims)[n], outcome(n)) else old(claims)[n]
      ensures forall n | n in listed && old(claims)[n].version != Some(running) && outcome(n).Applied? ::
        && claims[n].version == Some(running)
        && claims[n].hash == if old(claims)[n].drifted then old(claims)[n].hash else Some(h(running, cls.spec))
      ensures forall n | n in claims && (n !in listed || old(claims)[n].version == Some(running) || !outcome(n).Applied?) ::
        claims[n] == old(claims)[n]
      ensures failed <==> exists n :: n in listed && old(claims)[n].version != Some(running) && outcome(n).Failed?
    {
      failed := false;
      for i := 0 to |listed|
        invariant claims.Keys == old(claims).Keys
        invariant forall n | n in claims ::
          claims[n] == if n in listed[..i] then After(h, running, cls.spec, old(claims)[n], outcome(n)) else old(claims)[n]
        invariant failed <==> exists n :: n in listed[..i] && old(claims)[n].version != Some(running) && outcome(n).Failed?
      {
        var n := listed[i];
        assert n !in listed[..i];
        assert listed[..i + 1] == listed[..i] + [n];
        var c := claims[n];
        if c.version == Some(running) {
          continue;
        }
        match outcome(n) {
          case Applied => claims := claims[n := Patched(h, running, cls.spec, Copy(c.hash, c.drifted), c)];
          case Gone =>
          case Failed => failed := true;
        }
      }
      assert listed[..|listed|] == listed;
    }

    /** The class as this generator would stamp it. */
    static function Restamped(h: Hasher, running: nat, cls: Class): Class
    {
      cls.(version := Some(running), hash := Some(h(running, cls.spec)), from := cls.spec)
    }

    static predicate UpToDate(h: Hasher, running: nat, cls: Class)
    {
      cls.version == Some(running) && cls.hash == Some(h(running, cls.spec))
    }

    /**
     * Reconcile without interference; `listed` is None when the claims cannot
     * be listed. The class is re-stamped only after a back-fill in which no
     * patch failed; every error leaves it untouched.
     */
    method Reconcile(h: Hasher, running: nat, terminating: bool, listed: Option<seq<string>>, outcome: string -> Outcome,
                     classOutcome: Outcome) returns (err: bool)
      requires listed.Some? ==> Distinct(listed.value) && forall n | n in listed.value :: n in claims
      modifies this
      ensures terminating ==> !err && cls == old(cls) && claims == old(claims)
      ensures err ==> cls == old(cls)
      ensures !terminating && !err ==>
        cls == if UpToDate(h, running, old(cls)) || classOutcome.Applied? then Restamped(h, running, old(cls)) else old(cls)
      ensures !terminating && !err ==>
        var current := old(cls).version == Some(running) && old(cls).hash == Some(h(running, old(cls).spec));
        if current || classOutcome.Applied?
        then cls.spec == old(cls).spec && cls.version == Some(running) && cls.hash == Some(h(running, cls.spec))
        else cls == old(cls)
      ensures !terminating ==>
        (err <==>
          || (old(cls).version != Some(running)
              && (listed.None? || exists n :: n in listed.value && old(claims)[n].version != Some(running) && outcome(n).Failed?))
          || ((old(cls).version != Some(running) || old(cls).hash != Some(h(running, old(cls).spec))) && classOutcome.Failed?))
      ensures cls.version == Some(running) && old(cls).version != Some(running) ==>
        listed.Some? && forall n | n in listed.value && !outcome(n).Gone? :: n in claims && claims[n].version == Some(running)
      ensures old(cls).version == Some(running) ==> claims == old(claims)
    {
      if terminating {
        return false;
      }
      if cls.version != Some(running) {
        if listed.None? {
          return true;
        }
        var failed := BackfillNodeClaimHashes(h, running, listed.value, outcome);
        if failed {
          return true;
        }
      }
      var stored := cls;
      if !UpToDate(h, running, stored) {
        match classOutcome {
          case Failed => return true;
          case Gone => return false;
          case Applied =>
        }
      }
      cls := Restamped(h, running, stored);
      return false;
    }
  }
}
