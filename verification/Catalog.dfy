/**
 * The server-type catalog and its wake-up signal
 * (internal/providers/catalog/catalog.go, the pump and the waiter filter in
 * internal/controllers/nodeclass/controller.go).
 */
module Catalog {
  import opened Common

  /** A snapshot, by the number of the successful refresh that produced it. */
  datatype Snapshot = Snapshot(generation: nat, fetchedAt: int)

  /** The provider's fields; `refreshed` is the one-slot channel. */
  class Provider {
    var generation: nat
    var snapshot: Option<Snapshot>
    var stale: bool
    var refreshed: bool

    constructor ()
      ensures generation == 0 && snapshot.None? && !stale && !refreshed
    {
      generation, snapshot, stale, refreshed := 0, None, false, false;
    }

    /**
     * Refresh, run to completion. A failure keeps the snapshot and the signal
     * as they were; a success serves the next generation and leaves exactly one
     * wake-up pending, whether or not one was pending before.
     */
    method Refresh(fetched: bool, now: int) returns (ok: bool)
      modifies this
      ensures ok == fetched
      ensures !ok ==> stale && generation == old(generation) && snapshot == old(snapshot) && refreshed == old(refreshed)
      ensures ok ==> !stale && generation == old(generation) + 1 && snapshot == Some(Snapshot(generation, now)) && refreshed
    {
      if !fetched {
        stale := true;
        return false;
      }
      generation := generation + 1;
      snapshot := Some(Snapshot(generation, now));
      stale := false;
      if !refreshed {
        refreshed := true;
      }
      return true;
    }
  }

  // ---------------------------------------------------------------- refreshers, pump and NodeClasses as steps

  /** One refresh in progress: fetched, numbered, or stored and about to signal. */
  datatype Refresh = Fetched | Numbered(generation: nat) | Stored

  datatype Pump = PumpIdle | PumpHolding | PumpStopped

  /**
   * One NodeClass. `parked` is its stored condition: Some(v) when it waits on
   * the catalog, having last looked after `v` stores. `looked` is set while a
   * pass is under way. `passedBy` is history: since the class last looked, a
   * wake-up for a snapshot it had not seen was delivered and did not enqueue it.
   */
  datatype Class = Class(parked: Option<nat>, looked: Option<nat>, queued: bool, passedBy: bool)

  datatype State = State(
    generation: nat, served: Option<nat>, stale: bool,
    slot: bool, pump: Pump, refreshes: map<nat, Refresh>,
    stores: nat, seen: nat,
    classes: map<string, Class>)

  datatype Step =
    | FetchFailed
    | FetchDone(refresh: nat)
    | TakeNumber(refresh: nat)
    | StoreSnapshot(refresh: nat)
    | Signal(refresh: nat)
    | PumpReceive
    | PumpDeliver(shown: set<string>)
    | PumpStop
    | StartPass(class_: string)
    | EndPass(class_: string, blocked: bool)

  predicate Enabled(limit: nat, s: State, step: Step)
  {
    match step
    case FetchDone(r) => r !in s.refreshes && |s.refreshes| < limit
    case TakeNumber(r) => r in s.refreshes && s.refreshes[r].Fetched?
    case StoreSnapshot(r) => r in s.refreshes && s.refreshes[r].Numbered?
    case Signal(r) => r in s.refreshes && s.refreshes[r].Stored?
    case PumpReceive => s.pump.PumpIdle? && s.slot
    case PumpDeliver(_) => s.pump.PumpHolding?
    case StartPass(c) => c in s.classes && s.classes[c].looked.None?
    case EndPass(c, blocked) =>
      c in s.classes && s.classes[c].looked.Some? && (s.classes[c].looked == Some(0) ==> blocked)
    case _ => true
  }

  /** Which catalog the class last looked at: in the pass under way, else in the one that parked it. */
  function LastLook(c: Class): Option<nat>
  {
    if c.looked.Some? then c.looked else c.parked
  }

  /**
   * enqueueCatalogWaiters: every class its listing shows as waiting is enqueued.
   * The listing may fail and show none, or lag behind the stored conditions.
   */
  function Woken(c: Class, stores: nat, shown: bool): Class
  {
    if shown then c.(queued := true)
    else c.(passedBy := c.passedBy || (LastLook(c).Some? && LastLook(c).value < stores))
  }

  function Next(limit: nat, s: State, step: Step): State
    requires Enabled(limit, s, step)
  {
    match step
    case FetchFailed => s.(stale := true)
    case FetchDone(r) => s.(refreshes := s.refreshes[r := Fetched])
    case TakeNumber(r) =>
      s.(generation := s.generation + 1, refreshes := s.refreshes[r := Numbered(s.generation + 1)])
    case StoreSnapshot(r) =>
      s.(served := Some(s.refreshes[r].generation), stale := false, stores := s.stores + 1,
         refreshes := s.refreshes[r := Stored])
    case Signal(r) => s.(slot := true, refreshes := s.refreshes - {r})
    case PumpReceive => s.(slot := false, pump := PumpHolding)
    case PumpDeliver(shown) =>
      s.(pump := PumpIdle, seen := s.stores, classes := map c | c in s.classes :: Woken(s.classes[c], s.stores, c in shown))
    case PumpStop => s.(pump := PumpStopped)
    case StartPass(c) =>
      s.(classes := s.classes[c := s.classes[c].(looked := Some(s.stores), queued := false, passedBy := false)])
    case EndPass(c, blocked) =>
      var k := s.classes[c];
      s.(classes := s.classes[c := k.(looked := None, parked := if blocked then k.looked else None)])
  }

  predicate Legal(limit: nat, s: State, steps: seq<Step>)
    decreases |steps|
  {
    steps == [] || (Enabled(limit, s, steps[0]) && Legal(limit, Next(limit, s, steps[0]), steps[1..]))
  }

  function Exec(limit: nat, s: State, steps: seq<Step>): State
    requires Legal(limit, s, steps)
    decreases |steps|
  {
    if steps == [] then s else Exec(limit, Next(limit, s, steps[0]), steps[1..])
  }

  lemma ExecCons(limit: nat, s: State, step: Step, rest: seq<Step>)
    requires Enabled(limit, s, step) && Legal(limit, Next(limit, s, step), rest)
    ensures Legal(limit, s, [step] + rest) && Exec(limit, s, [step] + rest) == Exec(limit, Next(limit, s, step), rest)
  {
    assert ([step] + rest)[1..] == rest;
  }

  /** A process just started: nothing fetched, nothing signalled; classes hold whatever an earlier process left. */
  ghost predicate Start(s: State)
  {
    && s.generation == 0 && s.served.None? && !s.slot && s.pump.PumpIdle?
    && s.refreshes == map[] && s.stores == 0 && s.seen == 0
    && (forall c | c in s.classes ::
          && s.classes[c].looked.None? && !s.classes[c].passedBy
          && (s.classes[c].parked.Some? ==> s.classes[c].parked == Some(0)))
  }

  /** A wake-up is on its way: buffered, held by the pump, or about to be sent by a refresh that has stored. */
  ghost predicate WakeUpPending(s: State)
  {
    s.slot || s.pump.PumpHolding? || exists r :: r in s.refreshes && s.refreshes[r].Stored?
  }

  // ---------------------------------------------------------------- no lost wake-ups

  ghost predicate SignalInv(s: State)
  {
    && s.seen <= s.stores
    && (s.stores > s.seen && !s.pump.PumpStopped? ==> WakeUpPending(s))
  }

  ghost predicate ServedInv(s: State)
  {
    s.served.Some? <==> s.stores > 0
  }

  lemma NextSignal(limit: nat, s: State, step: Step)
    requires SignalInv(s) && ServedInv(s) && Enabled(limit, s, step)
    ensures SignalInv(Next(limit, s, step)) && ServedInv(Next(limit, s, step))
  {
    var t := Next(limit, s, step);
    match step {
      case StoreSnapshot(r) => assert t.refreshes[r].Stored?;
      case Signal(r) =>
      case _ =>
        if r :| r in s.refreshes && s.refreshes[r].Stored? {
          assert r in t.refreshes && t.refreshes[r].Stored?;
        }
    }
  }

  lemma {:induction false} ExecSignal(limit: nat, s: State, steps: seq<Step>)
    requires SignalInv(s) && ServedInv(s) && Legal(limit, s, steps)
    ensures SignalInv(Exec(limit, s, steps)) && ServedInv(Exec(limit, s, steps))
    ensures Exec(limit, s, steps).stores >= s.stores
    decreases |steps|
  {
    if steps != [] {
      NextSignal(limit, s, steps[0]);
      ExecSignal(limit, Next(limit, s, steps[0]), steps[1..]);
    }
  }

  /**
   * No wake-up is lost, for any number of concurrent refreshes: while the pump
   * runs, a snapshot stored since the last delivery always has a wake-up on its
   * way, and once anything is served the catalog never goes back to nil.
   */
  lemma NoLostWakeUp(limit: nat, s: State, steps: seq<Step>, more: seq<Step>)
    requires Start(s) && Legal(limit, s, steps) && Legal(limit, Exec(limit, s, steps), more)
    ensures var t := Exec(limit, s, steps); t.stores > t.seen && !t.pump.PumpStopped? ==> WakeUpPending(t)
    ensures Exec(limit, s, steps).served.Some? ==> Exec(limit, Exec(limit, s, steps), more).served.Some?
  {
    ExecSignal(limit, s, steps);
    ExecSignal(limit, Exec(limit, s, steps), more);
  }

  /** How the last refresh to end came out, starting from `stale`. */
  function LastFailed(stale: bool, steps: seq<Step>): bool
    decreases |steps|
  {
    if steps == [] then stale
    else LastFailed(if steps[0].FetchFailed? then true else if steps[0].StoreSnapshot? then false else stale, steps[1..])
  }

  /** Stale says, at every moment of every run, that the last refresh to end failed. */
  lemma {:induction false} StaleIsLastFailed(limit: nat, s: State, steps: seq<Step>)
    requires Legal(limit, s, steps)
    ensures Exec(limit, s, steps).stale == LastFailed(s.stale, steps)
    decreases |steps|
  {
    if steps != [] {
      StaleIsLastFailed(limit, Next(limit, s, steps[0]), steps[1..]);
    }
  }

  // ---------------------------------------------------------------- generations

  ghost predicate GenerationInv(s: State)
  {
    && |s.refreshes| <= 1
    && (forall r | r in s.refreshes && s.refreshes[r].Numbered? ::
          s.refreshes[r].generation == s.generation && s.generation == s.stores + 1)
    && ((forall r | r in s.refreshes :: !s.refreshes[r].Numbered?) ==> s.generation == s.stores)
    && (s.served.Some? ==> s.served.value == s.stores)
  }

  lemma OnlyRefresh(s: State, r: nat)
    requires |s.refreshes| <= 1 && r in s.refreshes
    ensures s.refreshes.Keys == {r}
  {
    assert |s.refreshes.Keys| == |s.refreshes|;
    var rest := s.refreshes.Keys - {r};
    assert |rest| == |s.refreshes.Keys| - 1;
  }

  lemma NextGeneration(s: State, step: Step)
    requires GenerationInv(s) && Enabled(1, s, step)
    ensures GenerationInv(Next(1, s, step))
  {
    var t := Next(1, s, step);
    match step {
      case FetchDone(r) =>
        assert s.refreshes == map[];
      case TakeNumber(r) =>
        OnlyRefresh(s, r);
        assert t.refreshes.Keys == {r};
      case StoreSnapshot(r) =>
        OnlyRefresh(s, r);
        assert t.refreshes.Keys == {r};
      case Signal(r) =>
        OnlyRefresh(s, r);
        assert t.refreshes == map[];
      case _ =>
    }
  }

  lemma {:induction false} ExecGeneration(s: State, steps: seq<Step>)
    requires GenerationInv(s) && Legal(1, s, steps)
    ensures GenerationInv(Exec(1, s, steps))
    decreases |steps|
  {
    if steps != [] {
      NextGeneration(s, steps[0]);
      ExecGeneration(Next(1, s, steps[0]), steps[1..]);
    }
  }

  /** In no run does the served snapshot go back to an older generation, and each success raises it by one. */
  ghost predicate GenerationsRise(limit: nat)
  {
    forall s, steps, r | Start(s) && Legal(limit, s, steps) && Enabled(limit, Exec(limit, s, steps), StoreSnapshot(r)) ::
      var t := Exec(limit, s, steps);
      Next(limit, t, StoreSnapshot(r)).served == Some(if t.served.Some? then t.served.value + 1 else 1)
  }

  const BOOT := State(0, None, false, false, PumpIdle, map[], 0, 0, map[])

  /** Two refreshes at once: the second number is stored first. */
  lemma RacingRefreshes() returns (steps: seq<Step>)
    ensures Legal(2, BOOT, steps) && Enabled(2, Exec(2, BOOT, steps), StoreSnapshot(1))
    ensures Exec(2, BOOT, steps).served.None?
    ensures Next(2, Exec(2, BOOT, steps), StoreSnapshot(1)).served == Some(2)
  {
    var s1 := Next(2, BOOT, FetchDone(0));
    assert s1.refreshes == map[0 := Fetched] && |s1.refreshes| == 1;
    var s2 := Next(2, s1, FetchDone(1));
    var s3 := Next(2, s2, TakeNumber(0));
    var s4 := Next(2, s3, TakeNumber(1));
    steps := [TakeNumber(1)] + [];
    ExecCons(2, s3, TakeNumber(1), []);
    ExecCons(2, s2, TakeNumber(0), steps);
    steps := [TakeNumber(0)] + steps;
    ExecCons(2, s1, FetchDone(1), steps);
    steps := [FetchDone(1)] + steps;
    ExecCons(2, BOOT, FetchDone(0), steps);
    steps := [FetchDone(0)] + steps;
    assert s4.refreshes[1] == Numbered(2);
  }

  lemma {:induction false} MoreAllowed(limit: nat, s: State, steps: seq<Step>)
    requires limit >= 2 && Legal(2, s, steps)
    ensures Legal(limit, s, steps) && Exec(limit, s, steps) == Exec(2, s, steps)
    decreases |steps|
  {
    if steps != [] {
      assert Next(limit, s, steps[0]) == Next(2, s, steps[0]);
      MoreAllowed(limit, Next(2, s, steps[0]), steps[1..]);
    }
  }

  /** Generations rise by one per success exactly when refreshes do not overlap, as under Start's single loop. */
  lemma GenerationsRiseIff(limit: nat)
    ensures GenerationsRise(limit) <==> limit <= 1
  {
    if limit <= 1 {
      forall s, steps, r | Start(s) && Legal(limit, s, steps) && Enabled(limit, Exec(limit, s, steps), StoreSnapshot(r))
        ensures var t := Exec(limit, s, steps);
          Next(limit, t, StoreSnapshot(r)).served == Some(if t.served.Some? then t.served.value + 1 else 1)
      {
        AtMostOneAllowed(limit, s, steps);
        ExecGeneration(s, steps);
        ExecSignal(limit, s, steps);
      }
    } else {
      var steps := RacingRefreshes();
      MoreAllowed(limit, BOOT, steps);
      assert Start(BOOT);
      var t := Exec(limit, BOOT, steps);
      assert Enabled(limit, t, StoreSnapshot(1));
    }
  }

  lemma {:induction false} AtMostOneAllowed(limit: nat, s: State, steps: seq<Step>)
    requires limit <= 1 && Legal(limit, s, steps)
    ensures Legal(1, s, steps) && Exec(1, s, steps) == Exec(limit, s, steps)
    decreases |steps|
  {
    if steps != [] {
      assert Next(limit, s, steps[0]) == Next(1, s, steps[0]);
      AtMostOneAllowed(limit, Next(1, s, steps[0]), steps[1..]);
    }
  }

  // ---------------------------------------------------------------- no NodeClass forgotten

  /** Class `k` waits on a catalog older than the one now served, and nothing is going to wake it. */
  ghost predicate Forgotten(s: State, k: Class)
  {
    k.parked.Some? && k.parked.value < s.stores && !k.queued && k.looked.None? && !WakeUpPending(s)
  }

  ghost predicate ClassInv(s: State, k: Class)
  {
    && (k.parked.Some? ==> k.parked.value <= s.stores)
    && (k.looked.Some? ==> k.looked.value <= s.stores)
    && (Forgotten(s, k) ==> k.passedBy)
    && (k.looked.Some? && k.looked.value < s.stores && !WakeUpPending(s) ==> k.queued || k.passedBy)
    && (k.looked.Some? && k.passedBy ==> k.looked.value < s.stores)
    && (k.looked.None? && k.parked.Some? && k.passedBy ==> k.parked.value < s.stores)
  }

  ghost predicate ClassesInv(s: State)
  {
    SignalInv(s) && ServedInv(s) && forall c | c in s.classes :: ClassInv(s, s.classes[c])
  }

  lemma StillPending(limit: nat, s: State, step: Step)
    requires Enabled(limit, s, step) && !step.PumpDeliver? && !step.PumpStop? && WakeUpPending(s)
    ensures WakeUpPending(Next(limit, s, step))
  {
    var t := Next(limit, s, step);
    if r :| r in s.refreshes && s.refreshes[r].Stored? {
      assert step == Signal(r) || (r in t.refreshes && t.refreshes[r].Stored?);
    }
  }

  lemma NextClasses(limit: nat, s: State, step: Step)
    requires ClassesInv(s) && Enabled(limit, s, step) && !step.PumpStop?
    ensures ClassesInv(Next(limit, s, step))
  {
    NextSignal(limit, s, step);
    var t := Next(limit, s, step);
    if WakeUpPending(s) && !step.PumpDeliver? {
      StillPending(limit, s, step);
    }
    match step {
      case StoreSnapshot(r) => assert t.refreshes[r].Stored? && WakeUpPending(t);
      case _ =>
    }
  }

  lemma {:induction false} ExecClasses(limit: nat, s: State, steps: seq<Step>)
    requires ClassesInv(s) && Legal(limit, s, steps) && PumpStop !in steps
    ensures ClassesInv(Exec(limit, s, steps))
    decreases |steps|
  {
    if steps != [] {
      assert steps[0] in steps;
      NextClasses(limit, s, steps[0]);
      ExecClasses(limit, Next(limit, s, steps[0]), steps[1..]);
    }
  }

  /** Waiting on the catalog, with no pass under way or queued and no wake-up on its way. */
  ghost predicate AtRest(s: State, k: Class)
  {
    k.parked.Some? && k.looked.None? && !k.queued && !WakeUpPending(s)
  }

  /**
   * Seen from a NodeClass, for any number of concurrent refreshes, listings that
   * fail or lag, and while the pump runs: a waiting class that nothing is going
   * to wake waits on an outdated catalog if and only if, since it last looked, a
   * wake-up for a snapshot it had not seen was delivered by a listing that did
   * not show it as waiting.
   */
  lemma ForgottenIffPassedBy(limit: nat, s: State, steps: seq<Step>, c: string)
    requires Start(s) && Legal(limit, s, steps) && PumpStop !in steps
    requires c in Exec(limit, s, steps).classes
    ensures var t := Exec(limit, s, steps);
      AtRest(t, t.classes[c]) ==> (Forgotten(t, t.classes[c]) <==> t.classes[c].passedBy)
  {
    ExecClasses(limit, s, steps);
  }

  // ---------------------------------------------------------------- with accurate listings

  /** A delivery whose listing shows exactly the classes stored as waiting. */
  ghost predicate Accurate(s: State, step: Step)
  {
    step.PumpDeliver? ==> forall c | c in s.classes :: c in step.shown <==> s.classes[c].parked.Some?
  }

  ghost predicate ListingsAccurate(limit: nat, s: State, steps: seq<Step>)
    requires Legal(limit, s, steps)
    decreases |steps|
  {
    steps == [] || (Accurate(s, steps[0]) && ListingsAccurate(limit, Next(limit, s, steps[0]), steps[1..]))
  }

  /** A class that was already waiting when its pass began has not been passed by. */
  ghost predicate WaitersSeen(s: State)
  {
    forall c | c in s.classes && s.classes[c].looked.Some? && s.classes[c].parked.Some? :: !s.classes[c].passedBy
  }

  lemma NextWaitersSeen(limit: nat, s: State, step: Step)
    requires WaitersSeen(s) && Enabled(limit, s, step) && Accurate(s, step)
    ensures WaitersSeen(Next(limit, s, step))
  {
    var t := Next(limit, s, step);
    forall c | c in t.classes && t.classes[c].looked.Some? && t.classes[c].parked.Some? ensures !t.classes[c].passedBy {
      if step.PumpDeliver? {
        assert t.classes[c] == Woken(s.classes[c], s.stores, c in step.shown);
      }
    }
  }

  /** With accurate listings only a class that was not waiting when its pass began can be passed by during it. */
  lemma {:induction false} WaitersNeverPassedBy(limit: nat, s: State, steps: seq<Step>)
    requires WaitersSeen(s) && Legal(limit, s, steps) && ListingsAccurate(limit, s, steps)
    ensures WaitersSeen(Exec(limit, s, steps))
    decreases |steps|
  {
    if steps != [] {
      NextWaitersSeen(limit, s, steps[0]);
      WaitersNeverPassedBy(limit, Next(limit, s, steps[0]), steps[1..]);
    }
  }

  // ---------------------------------------------------------------- the two ways to be passed by

  const RESTART := State(0, None, false, false, PumpIdle, map[], 0, 0, map["default" := Class(None, None, false, false)])
  const STORED_MID_PASS :=
    State(1, Some(1), false, false, PumpIdle, map[0 := Stored], 1, 0, map["default" := Class(None, Some(0), false, false)])

  lemma RefreshDuringPass() returns (steps: seq<Step>)
    ensures Legal(1, RESTART, steps) && Exec(1, RESTART, steps) == STORED_MID_PASS && PumpStop !in steps
    ensures forall step | step in steps :: !step.PumpDeliver?
  {
    var s1 := Next(1, RESTART, StartPass("default"));
    var s2 := Next(1, s1, FetchDone(0));
    var s3 := Next(1, s2, TakeNumber(0));
    assert Next(1, s3, StoreSnapshot(0)) == STORED_MID_PASS;
    steps := [StoreSnapshot(0)] + [];
    ExecCons(1, s3, StoreSnapshot(0), []);
    ExecCons(1, s2, TakeNumber(0), steps);
    steps := [TakeNumber(0)] + steps;
    ExecCons(1, s1, FetchDone(0), steps);
    steps := [FetchDone(0)] + steps;
    ExecCons(1, RESTART, StartPass("default"), steps);
    steps := [StartPass("default")] + steps;
  }

  lemma DeliverThenPark() returns (steps: seq<Step>)
    ensures Legal(1, STORED_MID_PASS, steps) && PumpStop !in steps && ListingsAccurate(1, STORED_MID_PASS, steps)
    ensures var t := Exec(1, STORED_MID_PASS, steps);
      "default" in t.classes && Forgotten(t, t.classes["default"])
  {
    var s5 := Next(1, STORED_MID_PASS, Signal(0));
    var s6 := Next(1, s5, PumpReceive);
    var s7 := Next(1, s6, PumpDeliver({}));
    var s8 := Next(1, s7, EndPass("default", true));
    var d := [EndPass("default", true)] + [];
    ExecCons(1, s7, EndPass("default", true), []);
    var c := [PumpDeliver({})] + d;
    ExecCons(1, s6, PumpDeliver({}), d);
    var b := [PumpReceive] + c;
    ExecCons(1, s5, PumpReceive, c);
    ExecCons(1, STORED_MID_PASS, Signal(0), b);
    steps := [Signal(0)] + b;
    assert s8.refreshes == map[];
    assert steps[1..] == b && b[1..] == c && c[1..] == d && d[1..] == [];
    assert ListingsAccurate(1, s7, d);
    assert ListingsAccurate(1, s6, c);
    assert ListingsAccurate(1, s5, b);
  }

  /**
   * Even with accurate listings: after a restart, a class whose stored condition
   * is not waiting looks at the empty catalog, the first refresh is stored,
   * signalled and delivered, and only then does the pass park the class. It
   * stays parked until its own requeue.
   */
  lemma OvertakenWaiterReachable() returns (a: seq<Step>, b: seq<Step>)
    ensures Start(RESTART) && Legal(1, RESTART, a) && Legal(1, Exec(1, RESTART, a), b)
    ensures PumpStop !in a && PumpStop !in b && ListingsAccurate(1, Exec(1, RESTART, a), b)
    ensures forall step | step in a :: !step.PumpDeliver?
    ensures var t := Exec(1, Exec(1, RESTART, a), b);
      "default" in t.classes && Forgotten(t, t.classes["default"])
  {
    a := RefreshDuringPass();
    b := DeliverThenPark();
  }

  const WAITING := State(0, None, false, false, PumpIdle, map[], 0, 0, map["default" := Class(Some(0), None, false, false)])

  /** And a class that has been waiting all along, when the one delivery's listing fails. */
  lemma UnlistedWaiterReachable() returns (steps: seq<Step>)
    ensures Start(WAITING) && Legal(1, WAITING, steps) && PumpStop !in steps
    ensures var t := Exec(1, WAITING, steps); "default" in t.classes && Forgotten(t, t.classes["default"])
  {
    var s1 := Next(1, WAITING, FetchDone(0));
    var s2 := Next(1, s1, TakeNumber(0));
    var s3 := Next(1, s2, StoreSnapshot(0));
    var s4 := Next(1, s3, Signal(0));
    var s5 := Next(1, s4, PumpReceive);
    var s6 := Next(1, s5, PumpDeliver({}));
    steps := [PumpDeliver({})] + [];
    ExecCons(1, s5, PumpDeliver({}), []);
    ExecCons(1, s4, PumpReceive, steps);
    steps := [PumpReceive] + steps;
    ExecCons(1, s3, Signal(0), steps);
    steps := [Signal(0)] + steps;
    ExecCons(1, s2, StoreSnapshot(0), steps);
    steps := [StoreSnapshot(0)] + steps;
    ExecCons(1, s1, TakeNumber(0), steps);
    steps := [TakeNumber(0)] + steps;
    ExecCons(1, WAITING, FetchDone(0), steps);
    steps := [FetchDone(0)] + steps;
    assert s6.refreshes == map[];
  }
}
