/**
 * The shared server listing (internal/providers/instance/list.go): a TTL cache
 * behind a single flight, with detached flights, cancellable waiters and
 * `invalidate`, as the atomic steps its goroutines interleave.
 *
 * Upstream is a version counter: every change to the project's servers raises
 * it, and a listing shows the version current when its snapshot was taken.
 */
module ListCache {
  import opened Common

  /**
   * `bound` limits the time from an upstream call to the store of its answer:
   * listTimeout for the call, and an assumed limit on how long the flight then
   * takes to reach the lock, which the code itself does not bound.
   */
  datatype Config = Config(ttl: int, bound: int)

  ghost predicate ValidConfig(cfg: Config)
  {
    cfg.ttl > 0 && cfg.bound >= 0
  }

  /** One upstream answer: which flight made the call, when and at which version it began, and what it shows. */
  datatype Listing = Listing(flight: nat, begunAt: int, begun: nat, takenAt: int, shown: nat)

  datatype Entry = Entry(listing: Listing, fetchedAt: int)

  /** `freshAt` is the instant of the freshness check that let a cached listing be reused. */
  datatype Outcome = Served(listing: Listing, freshAt: Option<int>) | Failed

  /** Where one flight's goroutine is. `Done` has its result but is still registered in the group. */
  datatype Phase =
    | Opened
    | Stale
    | Fetching(begunAt: int, begun: nat)
    | Fetched(listing: Listing)
    | Done(outcome: Outcome)

  /** Where one caller of `list` is. `Ready` has a result waiting in its channel. */
  datatype Call =
    | Checking
    | Missed
    | Waiting(flight: nat)
    | Ready(outcome: Outcome, flight: nat)
    | Returned(outcome: Outcome, from: Option<nat>)
    | Cancelled

  datatype State = State(
    now: int, version: nat, cached: Option<Entry>,
    flights: map<nat, Phase>, open: Option<nat>, nextFlight: nat,
    calls: map<nat, Call>, nextCall: nat)

  datatype Step =
    | Tick(elapsed: nat)
    | Change
    | Begin
    | Check(call: nat)
    | Join(call: nat)
    | Recheck(flight: nat)
    | CallUpstream(flight: nat)
    | TakeSnapshot(flight: nat)
    | Store(flight: nat)
    | Fail(flight: nat)
    | Close(flight: nat)
    | Receive(call: nat)
    | Cancel(call: nat)
    | Invalidate

  predicate Init(s: State)
  {
    s.cached.None? && s.flights == map[] && s.open.None? && s.calls == map[]
  }

  predicate Fresh(cfg: Config, cached: Option<Entry>, now: int)
  {
    cached.Some? && now - cached.value.fetchedAt < cfg.ttl
  }

  predicate CallIs(s: State, c: nat, k: Call)
  {
    c in s.calls && s.calls[c] == k
  }

  predicate Enabled(cfg: Config, s: State, step: Step)
  {
    match step
    case Tick(d) => forall f | f in s.flights && s.flights[f].Fetched? :: s.now + d - s.flights[f].listing.begunAt <= cfg.bound
    case Change | Begin | Invalidate => true
    case Check(c) => CallIs(s, c, Checking)
    case Join(c) => CallIs(s, c, Missed)
    case Recheck(f) => f in s.flights && s.flights[f].Opened?
    case CallUpstream(f) => f in s.flights && s.flights[f].Stale?
    case TakeSnapshot(f) => f in s.flights && s.flights[f].Fetching? && s.now - s.flights[f].begunAt <= cfg.bound
    case Store(f) => f in s.flights && s.flights[f].Fetched?
    case Fail(f) => f in s.flights && !s.flights[f].Done?
    case Close(f) => f in s.flights && s.flights[f].Done?
    case Receive(c) => c in s.calls && s.calls[c].Ready?
    case Cancel(c) => c in s.calls && (s.calls[c].Waiting? || s.calls[c].Ready?)
  }

  /** What a freshness check answers: the cached listing, or nothing. */
  function CacheAnswer(cfg: Config, s: State): Option<Outcome>
  {
    if Fresh(cfg, s.cached, s.now) then Some(Served(s.cached.value.listing, Some(s.now))) else None
  }

  function Joined(s: State, c: nat): State
  {
    match s.open
    case Some(f) => s.(calls := s.calls[c := Waiting(f)])
    case None =>
      s.(calls := s.calls[c := Waiting(s.nextFlight)], open := Some(s.nextFlight),
         flights := s.flights[s.nextFlight := Opened], nextFlight := s.nextFlight + 1)
  }

  function Closed(s: State, f: nat): State
    requires f in s.flights && s.flights[f].Done?
  {
    s.(flights := s.flights - {f},
       open := if s.open == Some(f) then None else s.open,
       calls := map c | c in s.calls ::
         if s.calls[c] == Waiting(f) then Ready(s.flights[f].outcome, f) else s.calls[c])
  }

  function Next(cfg: Config, s: State, step: Step): State
    requires Enabled(cfg, s, step)
  {
    match step
    case Tick(d) => s.(now := s.now + d)
    case Change => s.(version := s.version + 1)
    case Begin => s.(calls := s.calls[s.nextCall := Checking], nextCall := s.nextCall + 1)
    case Check(c) =>
      var answer := CacheAnswer(cfg, s);
      s.(calls := s.calls[c := if answer.Some? then Returned(answer.value, None) else Missed])
    case Join(c) => Joined(s, c)
    case Recheck(f) =>
      var answer := CacheAnswer(cfg, s);
      s.(flights := s.flights[f := if answer.Some? then Done(answer.value) else Stale])
    case CallUpstream(f) => s.(flights := s.flights[f := Fetching(s.now, s.version)])
    case TakeSnapshot(f) =>
      var p := s.flights[f];
      s.(flights := s.flights[f := Fetched(Listing(f, p.begunAt, p.begun, s.now, s.version))])
    case Store(f) =>
      var l := s.flights[f].listing;
      s.(flights := s.flights[f := Done(Served(l, None))], cached := Some(Entry(l, s.now)))
    case Fail(f) => s.(flights := s.flights[f := Done(Failed)])
    case Close(f) => Closed(s, f)
    case Receive(c) => s.(calls := s.calls[c := Returned(s.calls[c].outcome, Some(s.calls[c].flight))])
    case Cancel(c) => s.(calls := s.calls[c := Cancelled])
    case Invalidate => s.(cached := None)
  }

  // ---------------------------------------------------------------- runs

  predicate Legal(cfg: Config, s: State, steps: seq<Step>)
    decreases |steps|
  {
    steps == [] || (Enabled(cfg, s, steps[0]) && Legal(cfg, Next(cfg, s, steps[0]), steps[1..]))
  }

  function Exec(cfg: Config, s: State, steps: seq<Step>): State
    requires Legal(cfg, s, steps)
    decreases |steps|
  {
    if steps == [] then s else Exec(cfg, Next(cfg, s, steps[0]), steps[1..])
  }

  lemma ExecCons(cfg: Config, s: State, step: Step, rest: seq<Step>)
    requires Enabled(cfg, s, step) && Legal(cfg, Next(cfg, s, step), rest)
    ensures Legal(cfg, s, [step] + rest) && Exec(cfg, s, [step] + rest) == Exec(cfg, Next(cfg, s, step), rest)
  {
    assert ([step] + rest)[1..] == rest;
  }

  lemma {:induction false} ExecAppend(cfg: Config, s: State, a: seq<Step>, b: seq<Step>)
    requires Legal(cfg, s, a) && Legal(cfg, Exec(cfg, s, a), b)
    ensures Legal(cfg, s, a + b) && Exec(cfg, s, a + b) == Exec(cfg, Exec(cfg, s, a), b)
    decreases |a|
  {
    if a == [] {
      assert a + b == b;
    } else {
      assert (a + b)[1..] == a[1..] + b;
      ExecAppend(cfg, Next(cfg, s, a[0]), a[1..], b);
    }
  }

  lemma {:induction false} LegalSplit(cfg: Config, s: State, a: seq<Step>, b: seq<Step>)
    requires Legal(cfg, s, a + b)
    ensures Legal(cfg, s, a) && Legal(cfg, Exec(cfg, s, a), b)
    ensures Exec(cfg, s, a + b) == Exec(cfg, Exec(cfg, s, a), b)
    decreases |a|
  {
    if a == [] {
      assert a + b == b;
    } else {
      assert (a + b)[1..] == a[1..] + b;
      LegalSplit(cfg, Next(cfg, s, a[0]), a[1..], b);
    }
  }

  // ---------------------------------------------------------------- the invariant

  ghost predicate ListingOk(s: State, l: Listing)
  {
    l.begunAt <= l.takenAt <= s.now && l.begun <= l.shown <= s.version
  }

  /** A served listing is young at its freshness check, or comes from the flight that answered. */
  ghost predicate OutcomeOk(cfg: Config, s: State, o: Outcome, flight: Option<nat>)
  {
    o.Served? ==>
      && ListingOk(s, o.listing)
      && (o.freshAt.Some? ==> o.freshAt.value <= s.now && o.freshAt.value - o.listing.takenAt < cfg.ttl + cfg.bound)
      && (o.freshAt.None? ==> flight == Some(o.listing.flight))
  }

  ghost predicate PhaseOk(cfg: Config, s: State, f: nat, p: Phase)
  {
    match p
    case Opened => true
    case Stale => !Fresh(cfg, s.cached, s.now)
    case Fetching(at, v) => at <= s.now && v <= s.version && !Fresh(cfg, s.cached, s.now)
    case Fetched(l) => ListingOk(s, l) && l.flight == f && s.now - l.begunAt <= cfg.bound
    case Done(o) => OutcomeOk(cfg, s, o, Some(f))
  }

  ghost predicate CallOk(cfg: Config, s: State, k: Call)
  {
    match k
    case Waiting(f) => f in s.flights
    case Ready(o, f) => OutcomeOk(cfg, s, o, Some(f))
    case Returned(o, from) => OutcomeOk(cfg, s, o, from)
    case _ => true
  }

  ghost predicate CacheOk(cfg: Config, s: State)
  {
    s.cached.Some? ==>
      var e := s.cached.value;
      ListingOk(s, e.listing) && e.listing.takenAt <= e.fetchedAt <= s.now && e.fetchedAt - e.listing.begunAt <= cfg.bound
  }

  ghost predicate Inv(cfg: Config, s: State)
  {
    && CacheOk(cfg, s)
    && (s.open.None? ==> s.flights == map[])
    && (s.open.Some? ==> s.flights.Keys == {s.open.value})
    && FlightsOk(cfg, s)
    && CallsOk(cfg, s)
  }

  ghost predicate FlightsOk(cfg: Config, s: State)
  {
    forall f | f in s.flights :: f < s.nextFlight && PhaseOk(cfg, s, f, s.flights[f])
  }

  ghost predicate CallsOk(cfg: Config, s: State)
  {
    forall c | c in s.calls :: c < s.nextCall && CallOk(cfg, s, s.calls[c])
  }

  lemma NextFlightsOk(cfg: Config, s: State, step: Step)
    requires ValidConfig(cfg) && Inv(cfg, s) && Enabled(cfg, s, step)
    ensures FlightsOk(cfg, Next(cfg, s, step))
  {
    match step {
      case Store(f) => assert s.open == Some(f);
      case _ =>
    }
  }

  lemma NextCallsOk(cfg: Config, s: State, step: Step)
    requires ValidConfig(cfg) && Inv(cfg, s) && Enabled(cfg, s, step)
    ensures CallsOk(cfg, Next(cfg, s, step))
  {
  }

  lemma NextInv(cfg: Config, s: State, step: Step)
    requires ValidConfig(cfg) && Inv(cfg, s) && Enabled(cfg, s, step)
    ensures Inv(cfg, Next(cfg, s, step))
  {
    NextFlightsOk(cfg, s, step);
    NextCallsOk(cfg, s, step);
    match step {
      case Close(f) => assert s.open == Some(f);
      case _ =>
    }
  }

  /** Every reachable state satisfies the invariant. */
  lemma {:induction false} ExecInv(cfg: Config, s: State, steps: seq<Step>)
    requires ValidConfig(cfg) && Inv(cfg, s) && Legal(cfg, s, steps)
    ensures Inv(cfg, Exec(cfg, s, steps))
    decreases |steps|
  {
    if steps != [] {
      NextInv(cfg, s, steps[0]);
      ExecInv(cfg, Next(cfg, s, steps[0]), steps[1..]);
    }
  }

  /** A run from a cold cache. */
  ghost predicate Run(cfg: Config, s: State, steps: seq<Step>)
  {
    ValidConfig(cfg) && Init(s) && Legal(cfg, s, steps)
  }

  /** Single flight: however callers interleave, at most one upstream listing is under way. */
  lemma OneFlight(cfg: Config, s: State, steps: seq<Step>, f: nat, g: nat)
    requires Run(cfg, s, steps)
    requires f in Exec(cfg, s, steps).flights && g in Exec(cfg, s, steps).flights
    ensures f == g
  {
    ExecInv(cfg, s, steps);
  }

  /**
   * Every listing served from the cache shows upstream state less than
   * ttl + bound old at the freshness check; every other one was fetched by the
   * very flight the caller joined.
   */
  lemma ServedBound(cfg: Config, s: State, steps: seq<Step>, c: nat)
    requires Run(cfg, s, steps)
    requires c in Exec(cfg, s, steps).calls
    requires Exec(cfg, s, steps).calls[c].Returned? && Exec(cfg, s, steps).calls[c].outcome.Served?
    ensures var k := Exec(cfg, s, steps).calls[c];
      && (k.outcome.freshAt.Some? ==> k.outcome.freshAt.value - k.outcome.listing.takenAt < cfg.ttl + cfg.bound)
      && (k.outcome.freshAt.None? ==> k.from == Some(k.outcome.listing.flight))
      && k.outcome.listing.begun <= k.outcome.listing.shown
  {
    ExecInv(cfg, s, steps);
  }

  // ---------------------------------------------------------------- pacing

  lemma {:induction false} CacheKept(cfg: Config, s: State, steps: seq<Step>, since: int)
    requires Legal(cfg, s, steps) && Invalidate !in steps
    requires s.cached.Some? && s.cached.value.fetchedAt >= since && s.now >= since
    ensures var t := Exec(cfg, s, steps); t.cached.Some? && t.cached.value.fetchedAt >= since && t.now >= since
    decreases |steps|
  {
    if steps != [] {
      assert steps[0] in steps;
      CacheKept(cfg, Next(cfg, s, steps[0]), steps[1..], since);
    }
  }

  /** After a stored listing, the next upstream call waits out the TTL unless something invalidated in between. */
  lemma UpstreamPaced(cfg: Config, s: State, before: seq<Step>, f: nat, between: seq<Step>, g: nat)
    requires Run(cfg, s, before + ([Store(f)] + (between + [CallUpstream(g)])))
    requires Invalidate !in between
    ensures Legal(cfg, s, before) && Legal(cfg, s, before + ([Store(f)] + between))
    ensures Exec(cfg, s, before + ([Store(f)] + between)).now - Exec(cfg, s, before).now >= cfg.ttl
  {
    LegalSplit(cfg, s, before, [Store(f)] + (between + [CallUpstream(g)]));
    var a := Exec(cfg, s, before);
    assert ([Store(f)] + (between + [CallUpstream(g)]))[1..] == between + [CallUpstream(g)];
    var b := Next(cfg, a, Store(f));
    LegalSplit(cfg, b, between, [CallUpstream(g)]);
    CacheKept(cfg, b, between, a.now);
    var d := Exec(cfg, b, between);
    ExecInv(cfg, s, before);
    NextInv(cfg, a, Store(f));
    ExecInv(cfg, b, between);
    assert Enabled(cfg, d, CallUpstream(g));
    assert ([Store(f)] + between)[1..] == between;
    assert Legal(cfg, a, [Store(f)] + between) && Exec(cfg, a, [Store(f)] + between) == d;
    ExecAppend(cfg, s, before, [Store(f)] + between);
  }

  // ---------------------------------------------------------------- what a caller gets

  lemma {:induction false} EntryStays(cfg: Config, s: State, steps: seq<Step>, e: Entry)
    requires Legal(cfg, s, steps) && s.cached == Some(e) && Invalidate !in steps
    requires forall step | step in steps :: !step.Store?
    ensures Exec(cfg, s, steps).cached == Some(e)
    decreases |steps|
  {
    if steps != [] {
      assert steps[0] in steps;
      EntryStays(cfg, Next(cfg, s, steps[0]), steps[1..], e);
    }
  }

  /**
   * A fresh listing is served. In every run, a caller that checks less than ttl
   * after the last store, nothing having invalidated since, returns at once with
   * exactly the listing that was stored, whatever other callers and flights do.
   */
  lemma FreshIsServed(cfg: Config, s: State, before: seq<Step>, f: nat, between: seq<Step>, c: nat)
    requires Run(cfg, s, before + ([Store(f)] + between)) && Legal(cfg, s, before)
    requires Enabled(cfg, Exec(cfg, s, before), Store(f))
    requires Invalidate !in between && forall step | step in between :: !step.Store?
    requires Enabled(cfg, Exec(cfg, s, before + ([Store(f)] + between)), Check(c))
    requires Exec(cfg, s, before + ([Store(f)] + between)).now - Exec(cfg, s, before).now < cfg.ttl
    ensures var d := Exec(cfg, s, before + ([Store(f)] + between));
      Next(cfg, d, Check(c)).calls[c] == Returned(Served(Exec(cfg, s, before).flights[f].listing, Some(d.now)), None)
  {
    LegalSplit(cfg, s, before, [Store(f)] + between);
    var a := Exec(cfg, s, before);
    assert ([Store(f)] + between)[1..] == between;
    var b := Next(cfg, a, Store(f));
    EntryStays(cfg, b, between, Entry(a.flights[f].listing, a.now));
  }

  /** Every failure handed out, or about to be, is that of a flight in `failed`; every cancelled call is in `cancelled`. */
  ghost predicate Blamed(s: State, failed: set<nat>, cancelled: set<nat>)
  {
    && (forall f | f in s.flights && s.flights[f] == Done(Failed) :: f in failed)
    && (forall c | c in s.calls :: CallBlamed(s.calls[c], failed) && (s.calls[c].Cancelled? ==> c in cancelled))
  }

  ghost predicate CallBlamed(k: Call, failed: set<nat>)
  {
    match k
    case Ready(Failed, f) => f in failed
    case Returned(Failed, from) => from.Some? && from.value in failed
    case _ => true
  }

  ghost function Failing(steps: seq<Step>): set<nat>
  {
    set i | 0 <= i < |steps| && steps[i].Fail? :: steps[i].flight
  }

  ghost function Cancelling(steps: seq<Step>): set<nat>
  {
    set i | 0 <= i < |steps| && steps[i].Cancel? :: steps[i].call
  }

  lemma NextBlamed(cfg: Config, s: State, step: Step, failed: set<nat>, cancelled: set<nat>)
    requires Enabled(cfg, s, step) && Blamed(s, failed, cancelled)
    ensures Blamed(Next(cfg, s, step), failed + Failing([step]), cancelled + Cancelling([step]))
  {
    assert step.Fail? ==> [step][0].flight in Failing([step]);
    assert step.Cancel? ==> [step][0].call in Cancelling([step]);
  }

  lemma {:induction false} ExecBlamed(cfg: Config, s: State, steps: seq<Step>, failed: set<nat>, cancelled: set<nat>)
    requires Legal(cfg, s, steps) && Blamed(s, failed, cancelled)
    ensures Blamed(Exec(cfg, s, steps), failed + Failing(steps), cancelled + Cancelling(steps))
    decreases |steps|
  {
    if steps != [] {
      NextBlamed(cfg, s, steps[0], failed, cancelled);
      ExecBlamed(cfg, Next(cfg, s, steps[0]), steps[1..], failed + Failing([steps[0]]), cancelled + Cancelling([steps[0]]));
      assert forall i | 0 <= i < |steps[1..]| :: steps[1..][i] == steps[i + 1];
      assert failed + Failing([steps[0]]) + Failing(steps[1..]) <= failed + Failing(steps);
      assert cancelled + Cancelling([steps[0]]) + Cancelling(steps[1..]) <= cancelled + Cancelling(steps);
    }
  }

  /**
   * Nobody fails for another's reasons: in every run a call that returned an
   * error joined a flight that failed, and a call that was cancelled was
   * cancelled itself.
   */
  lemma FailsOnlyWithItsFlight(cfg: Config, s: State, steps: seq<Step>, c: nat)
    requires Run(cfg, s, steps) && c in Exec(cfg, s, steps).calls
    ensures var k := Exec(cfg, s, steps).calls[c];
      && (k.Returned? && k.outcome.Failed? ==> k.from.Some? && Fail(k.from.value) in steps)
      && (k.Cancelled? ==> Cancel(c) in steps)
  {
    ExecBlamed(cfg, s, steps, {}, {});
  }

  /** Flights are detached: one that was opened stays until it closes, whoever gives up waiting for it. */
  lemma {:induction false} FlightOutlivesCallers(cfg: Config, s: State, steps: seq<Step>, f: nat)
    requires Legal(cfg, s, steps) && f in s.flights && Close(f) !in steps
    ensures f in Exec(cfg, s, steps).flights
    decreases |steps|
  {
    if steps != [] {
      assert steps[0] in steps;
      FlightOutlivesCallers(cfg, Next(cfg, s, steps[0]), steps[1..], f);
    }
  }

  // ---------------------------------------------------------------- invalidate

  /** The listing an unfinished flight holds, which it will store or hand to its waiters. */
  function Held(p: Phase): Option<Listing>
  {
    match p
    case Fetched(l) => Some(l)
    case Done(Served(l, _)) => Some(l)
    case _ => None
  }

  /** Everything `s` can still serve to calls numbered `n` or later satisfies `ok`. */
  ghost predicate OnlyServes(s: State, n: nat, ok: Listing -> bool)
  {
    && (s.cached.Some? ==> ok(s.cached.value.listing))
    && (forall f | f in s.flights && Held(s.flights[f]).Some? :: ok(Held(s.flights[f]).value))
    && (forall c | c in s.calls && c >= n :: CallServes(s.calls[c], ok))
  }

  ghost predicate CallServes(k: Call, ok: Listing -> bool)
  {
    (k.Ready? || k.Returned?) && k.outcome.Served? ==> ok(k.outcome.listing)
  }

  /** New listings are admitted by `ok` because of the version they begin or are taken at. */
  ghost predicate Admits(s: State, ok: Listing -> bool)
  {
    && (forall l: Listing | l.begun >= s.version && l.shown >= l.begun :: ok(l))
    && (forall f | f in s.flights && s.flights[f].Fetching? ::
          forall l: Listing | l.flight == f && l.begun == s.flights[f].begun && l.shown >= s.version :: ok(l))
  }

  lemma NextOnlyServes(cfg: Config, s: State, step: Step, n: nat, ok: Listing -> bool)
    requires ValidConfig(cfg) && Inv(cfg, s) && Enabled(cfg, s, step)
    requires n <= s.nextCall && OnlyServes(s, n, ok) && Admits(s, ok)
    ensures OnlyServes(Next(cfg, s, step), n, ok) && Admits(Next(cfg, s, step), ok)
  {
    var t := Next(cfg, s, step);
    match step {
      case TakeSnapshot(f) =>
        var p := s.flights[f];
        assert ok(Listing(f, p.begunAt, p.begun, s.now, s.version));
      case _ =>
    }
  }

  lemma {:induction false} ExecOnlyServes(cfg: Config, s: State, steps: seq<Step>, n: nat, ok: Listing -> bool)
    requires ValidConfig(cfg) && Inv(cfg, s) && Legal(cfg, s, steps)
    requires n <= s.nextCall && OnlyServes(s, n, ok) && Admits(s, ok)
    ensures OnlyServes(Exec(cfg, s, steps), n, ok)
    decreases |steps|
  {
    if steps != [] {
      NextOnlyServes(cfg, s, steps[0], n, ok);
      NextInv(cfg, s, steps[0]);
      ExecOnlyServes(cfg, Next(cfg, s, steps[0]), steps[1..], n, ok);
    }
  }

  /** Call `c` was answered with listing `l`. */
  ghost predicate Answered(s: State, c: nat, l: Listing)
  {
    c in s.calls && s.calls[c].Returned? && s.calls[c].outcome.Served? && s.calls[c].outcome.listing == l
  }

  /**
   * With no flight open when `invalidate` runs, every List begun afterwards is
   * answered from an upstream call that itself began no earlier than the
   * version reached by then, through any interleaving of callers,
   * cancellations, failures and further invalidations.
   */
  lemma QuietInvalidateReflected(cfg: Config, s: State, before: seq<Step>, after: seq<Step>, c: nat, l: Listing)
    requires Run(cfg, s, before + ([Invalidate] + after))
    requires Legal(cfg, s, before) && Exec(cfg, s, before).open.None?
    requires c >= Exec(cfg, s, before).nextCall
    requires Answered(Exec(cfg, s, before + ([Invalidate] + after)), c, l)
    ensures l.begun >= Exec(cfg, s, before).version
  {
    LegalSplit(cfg, s, before, [Invalidate] + after);
    var a := Exec(cfg, s, before);
    ExecInv(cfg, s, before);
    var b := Next(cfg, a, Invalidate);
    NextInv(cfg, a, Invalidate);
    assert ([Invalidate] + after)[1..] == after;
    ExecOnlyServes(cfg, b, after, a.nextCall, (x: Listing) => x.begun >= a.version);
  }

  /** The flight open at `a` already holds a listing older than version `v`. */
  ghost predicate StaleInHand(a: State, v: nat)
  {
    exists f :: f in a.flights && Held(a.flights[f]).Some? && Held(a.flights[f]).value.shown < v
  }

  /** After `invalidate` at `a`, no continuation answers a new call with a listing older than `v`. */
  ghost predicate ReflectsFrom(cfg: Config, a: State, v: nat)
  {
    forall after, c, l |
      Legal(cfg, Next(cfg, a, Invalidate), after) && c >= a.nextCall
      && Answered(Exec(cfg, Next(cfg, a, Invalidate), after), c, l) :: l.shown >= v
  }

  lemma NotStaleReflects(cfg: Config, a: State, v: nat)
    requires ValidConfig(cfg) && Inv(cfg, a) && v <= a.version && !StaleInHand(a, v)
    ensures ReflectsFrom(cfg, a, v)
  {
    var b := Next(cfg, a, Invalidate);
    NextInv(cfg, a, Invalidate);
    forall after, c, l | Legal(cfg, b, after) && c >= a.nextCall && Answered(Exec(cfg, b, after), c, l)
      ensures l.shown >= v
    {
      ExecOnlyServes(cfg, b, after, a.nextCall, (x: Listing) => x.shown >= v);
    }
  }

  /** A new caller joins the open flight and is handed the listing it holds. */
  lemma HeldIsServed(cfg: Config, a: State, f: nat) returns (after: seq<Step>)
    requires ValidConfig(cfg) && Inv(cfg, a) && f in a.flights && Held(a.flights[f]).Some?
    ensures Legal(cfg, Next(cfg, a, Invalidate), after)
    ensures Answered(Exec(cfg, Next(cfg, a, Invalidate), after), a.nextCall, Held(a.flights[f]).value)
  {
    var c := a.nextCall;
    var s0 := Next(cfg, a, Invalidate);
    var s1 := Next(cfg, s0, Begin);
    var s2 := Next(cfg, s1, Check(c));
    var s3 := Next(cfg, s2, Join(c));
    assert s3.calls[c] == Waiting(f) && s3.flights == a.flights;
    after := HandOver(cfg, s3, f, c);
    ExecCons(cfg, s2, Join(c), after);
    after := [Join(c)] + after;
    ExecCons(cfg, s1, Check(c), after);
    after := [Check(c)] + after;
    ExecCons(cfg, s0, Begin, after);
    after := [Begin] + after;
  }

  lemma HandOver(cfg: Config, s: State, f: nat, c: nat) returns (after: seq<Step>)
    requires f in s.flights && Held(s.flights[f]).Some? && CallIs(s, c, Waiting(f))
    ensures Legal(cfg, s, after)
    ensures Answered(Exec(cfg, s, after), c, Held(s.flights[f]).value)
  {
    var s4 := if s.flights[f].Fetched? then Next(cfg, s, Store(f)) else s;
    var s5 := Next(cfg, s4, Close(f));
    after := [Receive(c)] + [];
    ExecCons(cfg, s5, Receive(c), []);
    ExecCons(cfg, s4, Close(f), after);
    after := [Close(f)] + after;
    if s.flights[f].Fetched? {
      ExecCons(cfg, s, Store(f), after);
      after := [Store(f)] + after;
    }
  }

  /**
   * "The very next List reflects a change we already know about" holds exactly
   * when no flight open at the `invalidate` already holds an older listing.
   * A flight still calling upstream does no harm; one between its upstream
   * answer and its removal from the group does, because it stores that answer
   * over the invalidation or hands it to callers that join late.
   */
  lemma InvalidateReflectedIff(cfg: Config, s: State, before: seq<Step>, v: nat)
    requires Run(cfg, s, before) && v <= Exec(cfg, s, before).version
    ensures ReflectsFrom(cfg, Exec(cfg, s, before), v) <==> !StaleInHand(Exec(cfg, s, before), v)
  {
    var a := Exec(cfg, s, before);
    ExecInv(cfg, s, before);
    if StaleInHand(a, v) {
      var f :| f in a.flights && Held(a.flights[f]).Some? && Held(a.flights[f]).value.shown < v;
      var after := HeldIsServed(cfg, a, f);
      assert Answered(Exec(cfg, Next(cfg, a, Invalidate), after), a.nextCall, Held(a.flights[f]).value);
    } else {
      NotStaleReflects(cfg, a, v);
    }
  }

  /** And what can still be served late is that one listing and no other. */
  lemma OnlyHeldLeaks(cfg: Config, s: State, before: seq<Step>, after: seq<Step>, c: nat, l: Listing)
    requires Run(cfg, s, before) && Legal(cfg, Next(cfg, Exec(cfg, s, before), Invalidate), after)
    requires c >= Exec(cfg, s, before).nextCall
    requires Answered(Exec(cfg, Next(cfg, Exec(cfg, s, before), Invalidate), after), c, l)
    ensures var a := Exec(cfg, s, before);
      l.shown >= a.version || exists f :: f in a.flights && Held(a.flights[f]) == Some(l)
  {
    var a := Exec(cfg, s, before);
    ExecInv(cfg, s, before);
    NextInv(cfg, a, Invalidate);
    var held := set f | f in a.flights && Held(a.flights[f]).Some? :: Held(a.flights[f]).value;
    ExecOnlyServes(cfg, Next(cfg, a, Invalidate), after, a.nextCall, (x: Listing) => x.shown >= a.version || x in held);
  }

  const COLD := State(0, 0, None, map[], None, 0, map[], 0)

  const ONE_FLIGHT := State(0, 0, None, map[0 := Opened], Some(0), 1, map[0 := Waiting(0)], 1)
  const CHANGED_IN_FLIGHT :=
    State(0, 1, None, map[0 := Fetched(Listing(0, 0, 0, 0, 0))], Some(0), 1, map[0 := Waiting(0)], 1)

  lemma FirstMiss(cfg: Config) returns (steps: seq<Step>)
    ensures Legal(cfg, COLD, steps) && Exec(cfg, COLD, steps) == ONE_FLIGHT
  {
    var s1 := Next(cfg, COLD, Begin);
    var s2 := Next(cfg, s1, Check(0));
    assert Next(cfg, s2, Join(0)) == ONE_FLIGHT;
    steps := [Join(0)] + [];
    ExecCons(cfg, s2, Join(0), []);
    ExecCons(cfg, s1, Check(0), steps);
    steps := [Check(0)] + steps;
    ExecCons(cfg, COLD, Begin, steps);
    steps := [Begin] + steps;
  }

  lemma ChangeDuringFlight(cfg: Config) returns (steps: seq<Step>)
    requires ValidConfig(cfg)
    ensures Legal(cfg, ONE_FLIGHT, steps) && Exec(cfg, ONE_FLIGHT, steps) == CHANGED_IN_FLIGHT
  {
    var s4 := Next(cfg, ONE_FLIGHT, Recheck(0));
    var s5 := Next(cfg, s4, CallUpstream(0));
    var s6 := Next(cfg, s5, TakeSnapshot(0));
    assert Next(cfg, s6, Change) == CHANGED_IN_FLIGHT;
    steps := [Change] + [];
    ExecCons(cfg, s6, Change, []);
    ExecCons(cfg, s5, TakeSnapshot(0), steps);
    steps := [TakeSnapshot(0)] + steps;
    ExecCons(cfg, s4, CallUpstream(0), steps);
    steps := [CallUpstream(0)] + steps;
    ExecCons(cfg, ONE_FLIGHT, Recheck(0), steps);
    steps := [Recheck(0)] + steps;
  }

  /** The open-flight case is reachable: a listing taken before a change is served to a call begun after the invalidate. */
  lemma StaleListingReachable(cfg: Config) returns (steps: seq<Step>)
    requires ValidConfig(cfg)
    ensures Run(cfg, COLD, steps)
    ensures Exec(cfg, COLD, steps).version == 1 && StaleInHand(Exec(cfg, COLD, steps), 1)
    ensures !ReflectsFrom(cfg, Exec(cfg, COLD, steps), 1)
  {
    var first := FirstMiss(cfg);
    var rest := ChangeDuringFlight(cfg);
    ExecAppend(cfg, COLD, first, rest);
    steps := first + rest;
    assert Held(CHANGED_IN_FLIGHT.flights[0]).Some?;
    InvalidateReflectedIff(cfg, COLD, steps, 1);
  }

  // ---------------------------------------------------------------- the locked sections

  /** The mutable fields, with one method per critical section of list.go. */
  class Cache {
    const cfg: Config
    var cached: Option<Entry>

    /** newListCache: a non-positive TTL falls back to the default. */
    constructor (ttl: int, defaultTTL: int, bound: int)
      requires defaultTTL > 0 && bound >= 0
      ensures ValidConfig(cfg) && cached.None?
      ensures cfg == Config(if ttl <= 0 then defaultTTL else ttl, bound)
    {
      cfg := Config(if ttl <= 0 then defaultTTL else ttl, bound);
      cached := None;
    }

    /** The read-locked freshness check, made by every caller and again inside the flight. */
    method Lookup(s: State) returns (answer: Option<Outcome>)
      requires cached == s.cached
      ensures answer == CacheAnswer(cfg, s)
    {
      answer := None;
      if cached.Some? && s.now - cached.value.fetchedAt < cfg.ttl {
        answer := Some(Served(cached.value.listing, Some(s.now)));
      }
    }

    /** The write-locked store at the end of a successful flight. */
    method Put(s: State, f: nat)
      requires cached == s.cached && Enabled(cfg, s, Store(f))
      modifies this
      ensures cached == Next(cfg, s, Store(f)).cached
    {
      cached := Some(Entry(s.flights[f].listing, s.now));
    }

    method Drop(s: State)
      requires cached == s.cached
      modifies this
      ensures cached == Next(cfg, s, Invalidate).cached
    {
      cached := None;
    }
  }
}
