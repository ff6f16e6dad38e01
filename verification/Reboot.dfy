/** In-place repair by a hard reset, at most once per request (internal/providers/instance/reboot.go). */
module Reboot {
  import opened Common
  import opened Errors
  import opened Servers

  datatype Command = ResetServer | StopServer | ShutdownServer | EnableRescue | OtherCommand(name: string)
  datatype ActionStatus = Running | Succeeded | Errored

  /** One recorded action. `ours` is history: it was issued for the request under study. */
  datatype Action = Action(command: Command, status: ActionStatus, started: int, ours: bool)

  /** RecentActions lists one page, newest first. */
  const PAGE := 50

  predicate HeldDown(c: Command)
  {
    c.StopServer? || c.ShutdownServer? || c.EnableRescue?
  }

  /** An action that counts as the reset already issued. A zero request time matches nothing. */
  predicate CountsAsIssued(a: Action, requestedAt: Option<int>)
  {
    a.status != Errored && a.command.ResetServer? && requestedAt.Some? && a.started >= requestedAt.value
  }

  predicate Holds(a: Action)
  {
    a.status != Errored && HeldDown(a.command)
  }

  datatype Scan = Held(command: Command) | Issued | Clear

  /** A live command that takes the server down on purpose: stopped, shut down or put into rescue. */
  ghost predicate TakenDown(a: Action)
  {
    a.status in {Running, Succeeded} && a.command in {StopServer, ShutdownServer, EnableRescue}
  }

  /** A live reset that began at or after the request, which carries a time. */
  ghost predicate ResetSince(a: Action, requestedAt: Option<int>)
  {
    a.status in {Running, Succeeded} && a.command == ResetServer && requestedAt.Some? && requestedAt.value <= a.started
  }

  /** The action loop: someone else's hold wins over a reset already issued. */
  method ScanActions(actions: seq<Action>, requestedAt: Option<int>) returns (scan: Scan)
    ensures scan.Held? <==> exists i :: 0 <= i < |actions| && TakenDown(actions[i])
    ensures scan.Issued? <==>
      && (forall i | 0 <= i < |actions| :: !TakenDown(actions[i]))
      && (exists i :: 0 <= i < |actions| && ResetSince(actions[i], requestedAt))
    ensures scan.Clear? <==> AllClear(actions, requestedAt)
  {
    var issued := false;
    for i := 0 to |actions|
      invariant forall j | 0 <= j < i :: !Holds(actions[j])
      invariant issued <==> exists j :: 0 <= j < i && CountsAsIssued(actions[j], requestedAt)
    {
      var a := actions[i];
      if a.status == Errored {
      } else if HeldDown(a.command) {
        assert Holds(actions[i]);
        return Held(a.command);
      } else if CountsAsIssued(a, requestedAt) {
        issued := true;
      }
    }
    return if issued then Issued else Clear;
  }

  /** Nothing on the page holds the server down or counts as the reset. */
  ghost predicate AllClear(actions: seq<Action>, requestedAt: Option<int>)
  {
    forall i | 0 <= i < |actions| :: !Holds(actions[i]) && !CountsAsIssued(actions[i], requestedAt)
  }

  /** `terminal` failures make core replace the node; the others are retried. */
  datatype Answer = Done | NotFoundAnswer | FailedTerminally | RetryLater

  /** rebootError: only a rejected credential is terminal. */
  function RebootError(e: Err): Answer
  {
    if Classify(Some(e)) == ClassFatal then FailedTerminally else RetryLater
  }

  /** What core is told of a failed call: give up on a rejected credential, retry on anything else. */
  ghost function Retried(e: Err): Answer
  {
    if Code(e).Some? && Code(e).value in CREDENTIAL_CODES then FailedTerminally else RetryLater
  }

  /** A reset may be sent to a server seen with this status and this page of actions. */
  ghost predicate MayReset(status: string, actions: seq<Action>, requestedAt: Option<int>)
  {
    && status != "off"
    && forall i | 0 <= i < |actions| :: !TakenDown(actions[i]) && !ResetSince(actions[i], requestedAt)
  }

  /** What core is told when it may not. */
  ghost function HeldAnswer(actions: seq<Action>, requestedAt: Option<int>): Answer
  {
    if exists i :: 0 <= i < |actions| && TakenDown(actions[i]) then FailedTerminally
    else if exists i :: 0 <= i < |actions| && ResetSince(actions[i], requestedAt) then Done
    else FailedTerminally
  }

  /** The second half of Reboot: the page of actions, the server's status, and the reset. */
  method ResetUnlessHeld(status: string, actions: seq<Action>, requestedAt: Option<int>, reset: Option<Err>)
    returns (sent: bool, answer: Answer)
    ensures sent <==> MayReset(status, actions, requestedAt)
    ensures answer ==
      if sent then (if reset.None? then Done else Retried(reset.value)) else HeldAnswer(actions, requestedAt)
  {
    var scan := ScanActions(actions, requestedAt);
    match scan {
      case Held(_) => return false, FailedTerminally;
      case Issued => return false, Done;
      case Clear =>
    }
    if status == "off" {
      return false, FailedTerminally;
    }
    if reset.Some? {
      return true, RebootError(reset.value);
    }
    return true, Done;
  }

  /** What core is told when no reset is sent. */
  ghost function RefusalAnswer(cluster: string, providerID: string, claim: string, requestedAt: Option<int>,
                               read: Result<Option<Server>, Err>, actions: Result<seq<Action>, Err>): Answer
  {
    if ServerIDFromProviderID(providerID).None? then FailedTerminally
    else if read.Err? then Retried(read.error)
    else if read.value.None? then NotFoundAnswer
    else if !Carries(read.value.value, cluster) || Label(read.value.value.labels, LABEL_NODE_CLAIM) != claim then FailedTerminally
    else if actions.Err? then Retried(actions.error)
    else HeldAnswer(actions.value, requestedAt)
  }

  /**
   * Reboot, given the live read, the action page and the outcome of the reset
   * should it be sent. `sent` is the one destructive effect.
   */
  method RebootServer(cluster: string, providerID: string, claim: string, requestedAt: Option<int>,
                      read: Result<Option<Server>, Err>, actions: Result<seq<Action>, Err>, reset: Option<Err>)
    returns (sent: bool, answer: Answer)
    ensures sent <==>
      && ServerIDFromProviderID(providerID).Some?
      && read.Ok? && read.value.Some? && Carries(read.value.value, cluster)
      && Label(read.value.value.labels, LABEL_NODE_CLAIM) == claim
      && actions.Ok? && MayReset(read.value.value.status, actions.value, requestedAt)
    ensures sent ==> answer == if reset.None? then Done else Retried(reset.value)
    ensures !sent ==> answer == RefusalAnswer(cluster, providerID, claim, requestedAt, read, actions)
  {
    sent := false;
    if ServerIDFromProviderID(providerID).None? {
      return false, FailedTerminally;
    }
    if read.Err? {
      return false, RebootError(read.error);
    }
    if read.value.None? {
      return false, NotFoundAnswer;
    }
    var srv := read.value.value;
    if !IsManagedBy(read.value, cluster) {
      return false, FailedTerminally;
    }
    if Label(srv.labels, LABEL_NODE_CLAIM) != claim {
      return false, FailedTerminally;
    }
    if actions.Err? {
      return false, RebootError(actions.error);
    }
    sent, answer := ResetUnlessHeld(srv.status, actions.value, requestedAt, reset);
  }

  // ---------------------------------------------------------------- one request, retried

  /**
   * One reboot request and the world it is retried in. `skew` is how far
   * Hetzner's clock is ahead of the cluster's, which stamped `requestedAt`. A
   * reset whose call ended without an answer may reach Hetzner up to `late`
   * after it was sent (negative: never after the call), and a retry begins at
   * least `gap` after the last reset was sent.
   */
  datatype Config = Config(requestedAt: Option<int>, skew: int, late: int, gap: nat)

  /** Where the current attempt is: the server was seen with this status, or the reset is about to be sent. */
  datatype Phase = Idle | SawServer(status: string) | Armed

  /**
   * The server's whole action history, newest first, the attempt under way, when
   * the last reset was sent, and for every reset not yet arrived the latest
   * instant at which it can.
   */
  datatype State = State(now: int, actions: seq<Action>, power: string, phase: Phase, sentAt: Option<int>, onTheWay: seq<int>)

  /** A reset sent is recorded while the call lasts (answered or not), refused, or still on its way when the call ends. */
  datatype Fate = Recorded | Refused | Delayed

  datatype Step =
    | Tick(elapsed: nat)
    | ReadServer
    | ReadActions
    | SendReset(fate: Fate)
    | Arrive(index: nat)
    | Lose(index: nat)
    | GiveUp
    | Foreign(command: Command)
    | Settle(index: nat, outcome: ActionStatus)
    | Power(status: string)

  function Page(actions: seq<Action>): seq<Action>
  {
    if |actions| <= PAGE then actions else actions[..PAGE]
  }

  /** The request's own live resets are still on the page RecentActions returns. */
  predicate OnPage(actions: seq<Action>)
  {
    forall i | PAGE <= i < |actions| :: !LiveReset(actions[i])
  }

  predicate LiveReset(a: Action)
  {
    a.ours && a.status != Errored
  }

  predicate Enabled(cfg: Config, s: State, step: Step)
  {
    match step
    case Tick(d) => forall i | 0 <= i < |s.onTheWay| :: s.now + d <= s.onTheWay[i]
    case ReadServer => s.phase.Idle? && (s.sentAt.Some? ==> s.now >= s.sentAt.value + cfg.gap)
    case ReadActions => s.phase.SawServer? && OnPage(s.actions)
    case SendReset(fate) => s.phase.Armed? && (fate.Delayed? ==> cfg.late >= 0)
    case Arrive(i) => i < |s.onTheWay|
    case Lose(i) => i < |s.onTheWay|
    case Settle(i, status) => i < |s.actions| && s.actions[i].status == Running
    case _ => true
  }

  /** Hetzner records a new action, by its own clock. */
  function Recording(cfg: Config, s: State, command: Command, ours: bool): seq<Action>
  {
    [Action(command, Running, s.now + cfg.skew, ours)] + s.actions
  }

  function Dropped(deadlines: seq<int>, i: nat): seq<int>
    requires i < |deadlines|
  {
    deadlines[..i] + deadlines[i + 1..]
  }

  ghost function Next(cfg: Config, s: State, step: Step): State
    requires Enabled(cfg, s, step)
  {
    match step
    case Tick(d) => s.(now := s.now + d)
    case ReadServer => s.(phase := SawServer(s.power))
    case ReadActions =>
      s.(phase := if AllClear(Page(s.actions), cfg.requestedAt) && s.phase.status != "off" then Armed else Idle)
    case SendReset(fate) =>
      s.(phase := Idle, sentAt := Some(s.now),
         actions := if fate.Recorded? then Recording(cfg, s, ResetServer, true) else s.actions,
         onTheWay := if fate.Delayed? then s.onTheWay + [s.now + cfg.late] else s.onTheWay)
    case Arrive(i) => s.(actions := Recording(cfg, s, ResetServer, true), onTheWay := Dropped(s.onTheWay, i))
    case Lose(i) => s.(onTheWay := Dropped(s.onTheWay, i))
    case GiveUp => s.(phase := Idle)
    case Foreign(command) => s.(actions := Recording(cfg, s, command, false))
    case Settle(i, status) => s.(actions := s.actions[i := s.actions[i].(status := status)])
    case Power(status) => s.(power := status)
  }

  ghost predicate Legal(cfg: Config, s: State, steps: seq<Step>)
    decreases |steps|
  {
    steps == [] || (Enabled(cfg, s, steps[0]) && Legal(cfg, Next(cfg, s, steps[0]), steps[1..]))
  }

  ghost function Exec(cfg: Config, s: State, steps: seq<Step>): State
    requires Legal(cfg, s, steps)
    decreases |steps|
  {
    if steps == [] then s else Exec(cfg, Next(cfg, s, steps[0]), steps[1..])
  }

  /** The request has just been made: whatever happened before, none of it is its doing. */
  ghost predicate Start(cfg: Config, s: State)
  {
    && s.phase.Idle? && s.sentAt.None? && s.onTheWay == [] && (cfg.requestedAt.Some? ==> cfg.requestedAt.value <= s.now)
    && forall i | 0 <= i < |s.actions| :: !s.actions[i].ours
  }

  ghost predicate AtMostOne(actions: seq<Action>)
  {
    forall i, j | 0 <= i < |actions| && 0 <= j < |actions| && LiveReset(actions[i]) && LiveReset(actions[j]) :: i == j
  }

  ghost predicate NoLive(actions: seq<Action>)
  {
    forall i | 0 <= i < |actions| :: !LiveReset(actions[i])
  }

  /** Every reset of ours is one the scan would count. */
  ghost predicate Counted(requestedAt: int, actions: seq<Action>)
  {
    forall i | 0 <= i < |actions| && actions[i].ours :: actions[i].command.ResetServer? && actions[i].started >= requestedAt
  }

  /** A reset on its way is the only one, no attempt is under way meanwhile, and it arrives in time to be seen by the next. */
  ghost predicate Inv(cfg: Config, s: State)
  {
    && cfg.requestedAt.Some? && cfg.requestedAt.value <= s.now
    && AtMostOne(s.actions) && Counted(cfg.requestedAt.value, s.actions)
    && (s.phase.Armed? ==> NoLive(s.actions))
    && (s.onTheWay != [] ==>
          && |s.onTheWay| == 1 && s.phase.Idle? && NoLive(s.actions)
          && s.sentAt.Some? && s.now <= s.onTheWay[0] <= s.sentAt.value + cfg.late)
  }

  ghost predicate Safe(cfg: Config)
  {
    cfg.requestedAt.Some? && cfg.skew >= 0 && cfg.late < cfg.gap
  }

  /** The protocol's attempt arms a reset exactly when a call of Reboot that saw this server and this page sends one. */
  lemma ArmsIff(cfg: Config, s: State)
    requires s.phase.SawServer? && Enabled(cfg, s, ReadActions)
    ensures Next(cfg, s, ReadActions).phase.Armed? <==> MayReset(s.phase.status, Page(s.actions), cfg.requestedAt)
  {
    var page := Page(s.actions);
    assert forall i | 0 <= i < |page| :: Holds(page[i]) <==> TakenDown(page[i]);
    assert forall i | 0 <= i < |page| :: CountsAsIssued(page[i], cfg.requestedAt) <==> ResetSince(page[i], cfg.requestedAt);
  }

  lemma ReadSeesReset(cfg: Config, s: State)
    requires Inv(cfg, s) && OnPage(s.actions) && AllClear(Page(s.actions), cfg.requestedAt)
    ensures NoLive(s.actions)
  {
    forall i | 0 <= i < |s.actions| ensures !LiveReset(s.actions[i]) {
      if i < PAGE {
        assert Page(s.actions)[i] == s.actions[i];
      }
    }
  }

  lemma RecordingKeeps(cfg: Config, s: State, command: Command, ours: bool)
    requires Safe(cfg) && Inv(cfg, s)
    requires ours ==> command.ResetServer? && NoLive(s.actions)
    ensures var after := Recording(cfg, s, command, ours);
      AtMostOne(after) && Counted(cfg.requestedAt.value, after) && (!ours && NoLive(s.actions) ==> NoLive(after))
  {
    var after := Recording(cfg, s, command, ours);
    assert forall i | 0 < i < |after| :: after[i] == s.actions[i - 1];
  }

  lemma NextInv(cfg: Config, s: State, step: Step)
    requires Safe(cfg) && Inv(cfg, s) && Enabled(cfg, s, step)
    ensures Inv(cfg, Next(cfg, s, step))
  {
    match step {
      case ReadActions =>
        if AllClear(Page(s.actions), cfg.requestedAt) {
          ReadSeesReset(cfg, s);
        }
      case SendReset(_) => RecordingKeeps(cfg, s, ResetServer, true);
      case Arrive(_) => RecordingKeeps(cfg, s, ResetServer, true);
      case Foreign(command) => RecordingKeeps(cfg, s, command, false);
      case _ =>
    }
  }

  lemma {:induction false} ExecInv(cfg: Config, s: State, steps: seq<Step>)
    requires Safe(cfg) && Inv(cfg, s) && Legal(cfg, s, steps)
    ensures Inv(cfg, Exec(cfg, s, steps))
    decreases |steps|
  {
    if steps != [] {
      NextInv(cfg, s, steps[0]);
      ExecInv(cfg, Next(cfg, s, steps[0]), steps[1..]);
    }
  }

  /** No run of the request ends with two resets of its own that did not fail. */
  ghost predicate AtMostOnce(cfg: Config)
  {
    forall s, steps | Start(cfg, s) && Legal(cfg, s, steps) :: AtMostOne(Exec(cfg, s, steps).actions)
  }

  lemma ExecCons(cfg: Config, s: State, step: Step, rest: seq<Step>)
    requires Enabled(cfg, s, step) && Legal(cfg, Next(cfg, s, step), rest)
    ensures Legal(cfg, s, [step] + rest) && Exec(cfg, s, [step] + rest) == Exec(cfg, Next(cfg, s, step), rest)
  {
    assert ([step] + rest)[1..] == rest;
  }

  /** An attempt that finds nothing it counts, put in front of the run that follows it. */
  lemma Attempt(cfg: Config, s: State, fate: Fate, rest: seq<Step>) returns (steps: seq<Step>)
    requires s.phase.Idle? && s.power != "off" && |s.actions| < PAGE && Enabled(cfg, s, ReadServer)
    requires AllClear(s.actions, cfg.requestedAt) && (fate.Delayed? ==> cfg.late >= 0)
    requires Legal(cfg, Next(cfg, s.(phase := Armed), SendReset(fate)), rest)
    ensures Legal(cfg, s, steps)
    ensures Exec(cfg, s, steps) == Exec(cfg, Next(cfg, s.(phase := Armed), SendReset(fate)), rest)
  {
    var s1 := Next(cfg, s, ReadServer);
    var s2 := Next(cfg, s1, ReadActions);
    assert s2 == s.(phase := Armed);
    ExecCons(cfg, s2, SendReset(fate), rest);
    steps := [SendReset(fate)] + rest;
    ExecCons(cfg, s1, ReadActions, steps);
    steps := [ReadActions] + steps;
    ExecCons(cfg, s, ReadServer, steps);
    steps := [ReadServer] + steps;
  }

  /** A recorded reset that the next attempt does not count: no request time, or Hetzner's clock behind. */
  lemma SecondResetUncounted(cfg: Config)
    requires cfg.requestedAt.None? || cfg.skew < 0
    ensures !AtMostOnce(cfg)
  {
    var now := if cfg.requestedAt.Some? then cfg.requestedAt.value else 0;
    var s := State(now, [], "running", Idle, None, []);
    var s1 := Next(cfg, s.(phase := Armed), SendReset(Recorded));
    var s2 := Next(cfg, s1, Tick(cfg.gap));
    var s3 := Next(cfg, s2.(phase := Armed), SendReset(Recorded));
    var second := Attempt(cfg, s2, Recorded, []);
    ExecCons(cfg, s1, Tick(cfg.gap), second);
    var run := Attempt(cfg, s, Recorded, [Tick(cfg.gap)] + second);
    assert Start(cfg, s) && Exec(cfg, s, run) == s3;
    assert LiveReset(s3.actions[0]) && LiveReset(s3.actions[1]);
  }

  /** A reset still on its way when the next attempt reads the actions, and recorded after it. */
  lemma SecondResetUnseen(cfg: Config)
    requires cfg.late >= cfg.gap
    ensures !AtMostOnce(cfg)
  {
    var now := if cfg.requestedAt.Some? then cfg.requestedAt.value else 0;
    var s := State(now, [], "running", Idle, None, []);
    var s1 := Next(cfg, s.(phase := Armed), SendReset(Delayed));
    assert s1.onTheWay == [now + cfg.late];
    var s2 := Next(cfg, s1, Tick(cfg.gap));
    var s3 := Next(cfg, s2.(phase := Armed), SendReset(Recorded));
    var s4 := Next(cfg, s3, Arrive(0));
    assert Legal(cfg, s4, []);
    ExecCons(cfg, s3, Arrive(0), []);
    var second := Attempt(cfg, s2, Recorded, [Arrive(0)] + []);
    ExecCons(cfg, s1, Tick(cfg.gap), second);
    var run := Attempt(cfg, s, Delayed, [Tick(cfg.gap)] + second);
    assert Start(cfg, s) && Exec(cfg, s, run) == s4;
    assert LiveReset(s4.actions[0]) && LiveReset(s4.actions[1]);
  }

  /**
   * Retried any number of times, with answers lost and other people acting on
   * the server, a request resets the server at most once (failed resets aside)
   * if and only if it carries a request time, Hetzner's clock is not behind the
   * one that stamped it, and a reset that arrives late arrives before the next
   * attempt begins.
   */
  lemma AtMostOnceIff(cfg: Config)
    ensures AtMostOnce(cfg) <==> cfg.requestedAt.Some? && cfg.skew >= 0 && cfg.late < cfg.gap
  {
    if Safe(cfg) {
      forall s, steps | Start(cfg, s) && Legal(cfg, s, steps) ensures AtMostOne(Exec(cfg, s, steps).actions) {
        ExecInv(cfg, s, steps);
      }
    } else if cfg.late >= cfg.gap {
      SecondResetUnseen(cfg);
    } else {
      SecondResetUncounted(cfg);
    }
  }

  /** Why the page assumption is there: a reset with a full page of newer actions above it is not seen. */
  lemma PushedOffPage(newer: seq<Action>, a: Action, requestedAt: int)
    requires |newer| == 50 && CountsAsIssued(a, Some(requestedAt))
    requires forall i | 0 <= i < |newer| :: !Holds(newer[i]) && !newer[i].command.ResetServer?
    ensures AllClear(Page(newer + [a]), Some(requestedAt))
    ensures forall k | 0 < k <= 50 :: !AllClear(Page(newer[k..] + [a]), Some(requestedAt))
  {
    assert Page(newer + [a]) == newer;
    forall k | 0 < k <= 50 ensures !AllClear(Page(newer[k..] + [a]), Some(requestedAt)) {
      var p := Page(newer[k..] + [a]);
      assert p == newer[k..] + [a];
      assert CountsAsIssued(p[|p| - 1], Some(requestedAt));
    }
  }
}
