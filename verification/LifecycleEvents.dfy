/** What happened in a run of the local application, read off its events alone. */
module LifecycleEvents {
  import opened Common
  import opened ClaimGate
  import opened Supervisor

  /** What has to have happened before the application is online, in this order. */
  datatype Milestone = Serves | FirstCheck | Preflight | SecondCheck | Activation | LoopEntered | ThirdCheck

  const ORDER := [Serves, FirstCheck, Preflight, SecondCheck, Activation, LoopEntered, ThirdCheck]

  /** The supervisor went past a verification, and control was serving when it did. */
  ghost predicate VerifiedAt(s: State, e: Event, pc: Pc) {
    s.pc == pc && e == Sup(Succeeds) && s.control.phase == CServing
  }

  /** The gate was closed to this run before the step and accepts for it and its Worker after. */
  ghost predicate Opens(c: Config, s: State, e: Event, t: State) {
    && s.pc == ActivateGate && e == Sup(Succeeds)
    && s.gate.runId == Some(c.runId) && !s.gate.accepting && !s.gate.stopRequested
    && t.gate == GateRow(Some(c.runId), Some(c.workerId), true, true, false)
  }

  ghost predicate IsMilestone(c: Config, s: State, e: Event, t: State, m: Milestone) {
    match m
    case Serves => s.control.phase == CStarting && e == Ctl(Serve)
    case FirstCheck => VerifiedAt(s, e, VerifyFirst)
    case Preflight => s.worker.phase == WPreflight && e == Work(FinishPreflight)
    case SecondCheck => VerifiedAt(s, e, VerifySecond)
    case Activation => Opens(c, s, e, t)
    case LoopEntered => s.worker.phase == WStart && e == Work(EnterLoop)
    case ThirdCheck => VerifiedAt(s, e, VerifyThird)
  }

  ghost predicate MilestoneAt(c: Config, states: seq<State>, events: seq<Event>, i: nat, m: Milestone)
    requires |states| == |events| + 1 && i < |events|
  {
    IsMilestone(c, states[i], events[i], states[i + 1], m)
  }

  /** The first `k` milestones happened before event `n`, one after the other. */
  ghost predicate Reached(c: Config, states: seq<State>, events: seq<Event>, n: nat, k: nat)
    requires |states| == |events| + 1 && n <= |events| && k <= |ORDER|
    decreases k
  {
    if k == 0 then true
    else
      var m := ORDER[k - 1];
      exists i: nat :: i < n && MilestoneAt(c, states, events, i, m) && Reached(c, states, events, i, k - 1)
  }

  predicate Past(pc: Pc, rank: nat) {
    InStartup(pc) && Rank(pc) > rank
  }

  /** What can be seen of a state only after its first `k` milestones. */
  predicate Shows(s: State, k: nat) {
    match k
    case 1 => ControlReady in s.control.says || Past(s.pc, 3)
    case 2 => s.worker.pipe != [] || s.worker.phase == WPreflight || Preflighted(s.worker.phase) || Past(s.pc, 4)
    case 3 => PreflightReady in s.worker.says || Preflighted(s.worker.phase) || Past(s.pc, 8)
    case 4 => Past(s.pc, 9)
    case 5 => Claim in s.worker.pipe || Claiming(s.worker.phase) || Past(s.pc, 11)
    case 6 => WorkerReady in s.worker.says || s.worker.phase == WLoop || Past(s.pc, 13)
    case 7 => Past(s.pc, 14)
    case _ => false
  }

  lemma CleanupShowsNothing(c: Config, s: State, e: Ending, k: nat)
    requires !InStartup(s.pc)
    ensures Shows(CleanupStep(c, s, e), k) ==> Shows(s, k)
  {
    hide Stop, Ordered, Recorded;
  }

  lemma StartupShows(c: Config, s: State, e: Ending, k: nat)
    requires InStartup(s.pc) && SupEnabled(c, s, e) && 1 <= k <= |ORDER| && !Shows(s, k) && Shows(StartupStep(c, s, e), k)
    ensures IsMilestone(c, s, Sup(e), StartupStep(c, s, e), ORDER[k - 1]) && (k > 1 ==> Shows(s, k - 1))
  {
    hide PastAfter;
  }

  lemma SupShows(c: Config, s: State, e: Ending, k: nat)
    requires SupEnabled(c, s, e) && 1 <= k <= |ORDER| && !Shows(s, k) && Shows(SupStep(c, s, e), k)
    ensures IsMilestone(c, s, Sup(e), SupStep(c, s, e), ORDER[k - 1]) && (k > 1 ==> Shows(s, k - 1))
  {
    hide SupEnabled, StartupStep, CleanupStep, Shows, IsMilestone, InStartup;
    if InStartup(s.pc) {
      StartupShows(c, s, e, k);
    } else {
      CleanupShowsNothing(c, s, e, k);
    }
  }

  lemma WorkShows(c: Config, s: State, e: WorkerStep, k: nat)
    requires WorkerEnabled(c, s, e) && 1 <= k <= |ORDER| && !Shows(s, k) && Shows(WorkerStepEffect(c, s, e), k)
    ensures IsMilestone(c, s, Work(e), WorkerStepEffect(c, s, e), ORDER[k - 1]) && (k > 1 ==> Shows(s, k - 1))
  {
    hide Past, CanClaim;
  }

  lemma ControlShows(c: Config, s: State, e: ControlStep, k: nat)
    requires ControlEnabled(s, e) && 1 <= k <= |ORDER| && !Shows(s, k) && Shows(ControlStepEffect(s, e), k)
    ensures IsMilestone(c, s, Ctl(e), ControlStepEffect(s, e), ORDER[k - 1]) && (k > 1 ==> Shows(s, k - 1))
  {
    hide Past;
  }

  /** A state begins to show its `k`-th milestone only through the event that is that milestone. */
  lemma StepShows(c: Config, s: State, e: Event, k: nat)
    requires Enabled(c, s, e) && 1 <= k <= |ORDER| && !Shows(s, k) && Shows(Apply(c, s, e), k)
    ensures IsMilestone(c, s, e, Apply(c, s, e), ORDER[k - 1]) && (k > 1 ==> Shows(s, k - 1))
  {
    hide SupEnabled, SupStep, WorkerEnabled, WorkerStepEffect, ControlEnabled, ControlStepEffect, IsMilestone, Past;
    match e
    case Sup(ending) => SupShows(c, s, ending, k);
    case Work(w) => WorkShows(c, s, w, k);
    case Ctl(t) => ControlShows(c, s, t, k);
    case Foreign(row) =>
  }

  lemma {:induction false} ShownIsReached(c: Config, states: seq<State>, events: seq<Event>, n: nat, k: nat)
    requires IsRun(c, states, events) && n < |states| && k <= |ORDER| && (k > 0 ==> Shows(states[n], k))
    ensures Reached(c, states, events, n, k)
  {
    hide Shows, Apply, Enabled, IsMilestone, GateCheck;
    if k > 0 {
      if n == 0 {
        NothingShown(states[0].gate, k);
        assert false;
      } else if Shows(states[n - 1], k) {
        ShownIsReached(c, states, events, n - 1, k);
      } else {
        assert StepAt(c, states, events, n - 1);
        StepShows(c, states[n - 1], events[n - 1], k);
        ShownIsReached(c, states, events, n - 1, k - 1);
        assert MilestoneAt(c, states, events, n - 1, ORDER[k - 1]);
      }
    }
  }

  lemma NothingShown(gate: GateRow, k: nat)
    ensures !Shows(Init(gate), k)
  {
  }

  /**
   In every run, before a job is claimed control began to serve, was found serving by the first
   verification, the Worker's preflight succeeded, the second verification found control serving,
   the closed gate was opened to this run and the Worker entered its loop, in this order. Before
   the application is online, all that and a third verification that found control serving.
   */
  lemma StartupIsOrdered(c: Config, states: seq<State>, events: seq<Event>, k: nat)
    requires IsRun(c, states, events) && k < |states|
    ensures k < |events| && events[k] == Work(TakeJob) ==> Reached(c, states, events, k, 6)
    ensures states[k].pc == Online ==> Reached(c, states, events, k, 7)
  {
    hide Apply, IsMilestone, GateCheck;
    if k < |events| && events[k] == Work(TakeJob) {
      assert StepAt(c, states, events, k);
      ShownIsReached(c, states, events, k, 6);
    }
    if states[k].pc == Online { ShownIsReached(c, states, events, k, 7); }
  }

  /** In particular there are two verifications before the claim at which control was serving. */
  lemma ClaimFollowsTwoVerifications(c: Config, states: seq<State>, events: seq<Event>, k: nat) returns (i: nat, j: nat)
    requires IsRun(c, states, events) && k < |events| && events[k] == Work(TakeJob)
    ensures i < j < k
    ensures states[i].pc == VerifyFirst && events[i] == Sup(Succeeds) && states[i].control.phase == CServing
    ensures states[j].pc == VerifySecond && events[j] == Sup(Succeeds) && states[j].control.phase == CServing
  {
    hide Apply, GateCheck, Enabled, MilestoneAt, Reached, Init, StepAt;
    StartupIsOrdered(c, states, events, k);
    var f := Latest(c, states, events, k, 6);
    var e := Latest(c, states, events, f, 5);
    j := Latest(c, states, events, e, 4);
    var p := Latest(c, states, events, j, 3);
    i := Latest(c, states, events, p, 2);
    MilestoneIs(c, states, events, i, FirstCheck);
    MilestoneIs(c, states, events, j, SecondCheck);
  }

  lemma MilestoneIs(c: Config, states: seq<State>, events: seq<Event>, i: nat, m: Milestone)
    requires |states| == |events| + 1 && i < |events| && MilestoneAt(c, states, events, i, m)
    ensures IsMilestone(c, states[i], events[i], states[i + 1], m)
  {
  }

  /** The last of the first `k` milestones. */
  lemma Latest(c: Config, states: seq<State>, events: seq<Event>, n: nat, k: nat) returns (i: nat)
    requires |states| == |events| + 1 && n <= |events| && 0 < k <= |ORDER| && Reached(c, states, events, n, k)
    ensures i < n && MilestoneAt(c, states, events, i, ORDER[k - 1]) && Reached(c, states, events, i, k - 1)
  {
    hide IsMilestone;
    i :| i < n && MilestoneAt(c, states, events, i, ORDER[k - 1]) && Reached(c, states, events, i, k - 1);
  }

  /** A verification that finds control not serving ends the startup and changes nothing else. */
  lemma UnservedVerificationFails(c: Config, s: State, e: Ending)
    requires s.pc == VerifyFirst || s.pc == VerifySecond || s.pc == VerifyThird
    requires s.control.phase != CServing && SupEnabled(c, s, e)
    ensures SupStep(c, s, e) == s.(pc := Announce)
  {
  }

  // ------------------------------------------------------------ the history is true

  /** What the history remembers. */
  datatype Fact = GateOpened | WorkerLaunched | PreflightDone | Activated | StopCommitted | FoundFenced | KillAttempted

  predicate Holds(h: History, f: Fact) {
    match f
    case GateOpened => h.gateOpened
    case WorkerLaunched => h.workerLaunched
    case PreflightDone => h.preflightDone
    case Activated => h.activated
    case StopCommitted => h.stopCommitted
    case FoundFenced => h.foundFenced
    case KillAttempted => h.killAttempted
  }

  /** The supervisor's step took effect, whether or not it then raised. */
  predicate TookEffect(e: Event) {
    e == Sup(Succeeds) || e == Sup(RaisesLate) || e == Sup(InterruptedLate)
  }

  predicate StopsNow(c: Config, s: State, e: Event, t: State) {
    && s.pc == StopGate && TookEffect(e) && s.gate.runId == Some(c.runId)
    && t.gate == GateRow(s.gate.runId, s.gate.workerId, false, s.gate.activated, true)
  }

  /** The job is told to terminate; an interrupt that comes first prevents it. */
  predicate KillsNow(s: State, e: Event) {
    (s.pc == TerminateJob || s.pc == TerminateLeft) && (TookEffect(e) || e == Sup(Raises))
  }

  /** The event that makes the fact true. */
  predicate Happens(c: Config, s: State, e: Event, t: State, f: Fact) {
    match f
    case GateOpened => s.pc == OpenGate && TookEffect(e)
    case WorkerLaunched => s.pc == LaunchWorker && TookEffect(e) && t.worker.pipe == s.worker.pipe + [Launch]
    case PreflightDone => s.worker.phase == WPreflight && e == Work(FinishPreflight)
    case Activated => s.pc == ActivateGate && TookEffect(e) && !s.gate.accepting && t.gate.accepting
    case StopCommitted => StopsNow(c, s, e, t)
    case FoundFenced => s.pc == StopGate && TookEffect(e) && s.gate.runId != Some(c.runId) && t.gate == s.gate
    case KillAttempted => KillsNow(s, e)
  }

  lemma StartupRemembers(c: Config, s: State, e: Ending, f: Fact)
    requires InStartup(s.pc) && SupEnabled(c, s, e)
    ensures Holds(StartupStep(c, s, e).past, f) <==> Holds(s.past, f) || Happens(c, s, Sup(e), StartupStep(c, s, e), f)
  {
    hide ControlAfter, NextStartup;
  }

  predicate OfCleanup(f: Fact) {
    f == StopCommitted || f == FoundFenced || f == KillAttempted
  }

  lemma EscapeIsNoFact(h: History, escaped: bool, f: Fact)
    ensures Holds(h.(escapedEarly := escaped), f) == Holds(h, f)
  {
  }

  /** What a cleanup step's effect makes the history remember. */
  lemma RecordingSays(c: Config, effect: Effect, pc: Pc, g: GateRow, h: History, f: Fact)
    requires OfCleanup(f)
    ensures Holds(Recorded(c, effect, pc, g, h), f)
            <==> || Holds(h, f) || (f == StopCommitted && effect == StopsGate && g.runId == Some(c.runId))
                 || (f == FoundFenced && effect == StopsGate && g.runId != Some(c.runId))
                 || (f == KillAttempted && effect == Kills && pc != ReleaseJob)
  {
  }

  lemma CleanupHappens(c: Config, s: State, e: Ending, f: Fact)
    requires !InStartup(s.pc) && OfCleanup(f)
    ensures Happens(c, s, Sup(e), CleanupStep(c, s, e), f)
            <==> || (f == StopCommitted && CleanupEffect(s.pc, e) == StopsGate && s.gate.runId == Some(c.runId))
                 || (f == FoundFenced && CleanupEffect(s.pc, e) == StopsGate && s.gate.runId != Some(c.runId))
                 || (f == KillAttempted && CleanupEffect(s.pc, e) == Kills && s.pc != ReleaseJob)
  {
    hide Recorded, EndWorker, EndControl, CleanupTo, Ordered, Escapes, InStartup, Stopping, AfterStop, Releasing;
  }

  lemma CleanupRecords(c: Config, s: State, e: Ending, f: Fact)
    requires !InStartup(s.pc) && OfCleanup(f)
    ensures Holds(CleanupStep(c, s, e).past, f) <==> Holds(s.past, f) || Happens(c, s, Sup(e), CleanupStep(c, s, e), f)
  {
    hide EndWorker, EndControl, CleanupTo, Ordered, Escapes, InStartup, Recorded, CleanupEffect, Happens, Stop, Holds;
    CleanupHappens(c, s, e, f);
    RecordingSays(c, CleanupEffect(s.pc, e), s.pc, s.gate, s.past, f);
    var h := Recorded(c, CleanupEffect(s.pc, e), s.pc, s.gate, s.past);
    EscapeIsNoFact(h, !Ordered(h), f);
  }

  lemma RecordingKeeps(c: Config, effect: Effect, pc: Pc, g: GateRow, h: History, f: Fact)
    requires !OfCleanup(f)
    ensures Holds(Recorded(c, effect, pc, g, h), f) == Holds(h, f)
  {
  }

  lemma NoStartupFact(c: Config, s: State, e: Ending, t: State, f: Fact)
    requires !InStartup(s.pc) && !OfCleanup(f)
    ensures !Happens(c, s, Sup(e), t, f)
  {
  }

  lemma CleanupRemembers(c: Config, s: State, e: Ending, f: Fact)
    requires !InStartup(s.pc)
    ensures Holds(CleanupStep(c, s, e).past, f) <==> Holds(s.past, f) || Happens(c, s, Sup(e), CleanupStep(c, s, e), f)
  {
    hide EndWorker, EndControl, CleanupTo, Ordered, Escapes, Stop, StopsNow, KillsNow, CleanupEffect, Recorded, Holds, Happens;
    if OfCleanup(f) {
      CleanupRecords(c, s, e, f);
    } else {
      var h := Recorded(c, CleanupEffect(s.pc, e), s.pc, s.gate, s.past);
      RecordingKeeps(c, CleanupEffect(s.pc, e), s.pc, s.gate, s.past, f);
      EscapeIsNoFact(h, !Ordered(h), f);
      NoStartupFact(c, s, e, CleanupStep(c, s, e), f);
    }
  }

  lemma StepRemembers(c: Config, s: State, e: Event, f: Fact)
    requires Enabled(c, s, e)
    ensures Holds(Apply(c, s, e).past, f) <==> Holds(s.past, f) || Happens(c, s, e, Apply(c, s, e), f)
  {
    hide StartupStep, CleanupStep, SupEnabled, WorkerTurn, ControlTurn;
    if e.Sup? {
      if InStartup(s.pc) { StartupRemembers(c, s, e.ending, f); } else { CleanupRemembers(c, s, e.ending, f); }
    }
  }

  ghost predicate HappensAt(c: Config, states: seq<State>, events: seq<Event>, i: nat, f: Fact)
    requires |states| == |events| + 1 && i < |events|
  {
    Happens(c, states[i], events[i], states[i + 1], f)
  }

  ghost predicate Happened(c: Config, states: seq<State>, events: seq<Event>, n: nat, f: Fact)
    requires |states| == |events| + 1 && n <= |events|
  {
    exists i: nat :: i < n && HappensAt(c, states, events, i, f)
  }

  /** The history of a state says of each fact exactly whether its event is among the events so far. */
  lemma {:induction false} HistoryIsTrue(c: Config, states: seq<State>, events: seq<Event>, n: nat, f: Fact)
    requires IsRun(c, states, events) && n < |states|
    ensures Holds(states[n].past, f) <==> Happened(c, states, events, n, f)
  {
    hide Apply, Enabled, Happens, GateCheck, Holds;
    if n == 0 {
      NothingHeld(states[0].gate, f);
    } else {
      HistoryIsTrue(c, states, events, n - 1, f);
      assert StepAt(c, states, events, n - 1);
      StepRemembers(c, states[n - 1], events[n - 1], f);
      assert HappensAt(c, states, events, n - 1, f) <==> Happens(c, states[n - 1], events[n - 1], states[n], f);
    }
  }

  lemma NothingHeld(gate: GateRow, f: Fact)
    ensures !Holds(Init(gate).past, f)
  {
  }

  predicate Verifies(s: State, e: Event) {
    (s.pc == VerifyFirst || s.pc == VerifySecond || s.pc == VerifyThird) && TookEffect(e)
  }

  ghost function VerificationsIn(states: seq<State>, events: seq<Event>, n: nat): nat
    requires |states| == |events| + 1 && n <= |events|
  {
    if n == 0 then 0 else VerificationsIn(states, events, n - 1) + if Verifies(states[n - 1], events[n - 1]) then 1 else 0
  }

  ghost function ClaimsIn(events: seq<Event>, n: nat): nat
    requires n <= |events|
  {
    if n == 0 then 0 else ClaimsIn(events, n - 1) + if events[n - 1] == Work(TakeJob) then 1 else 0
  }

  lemma StartupCounts(c: Config, s: State, e: Ending)
    requires InStartup(s.pc) && SupEnabled(c, s, e)
    ensures StartupStep(c, s, e).past.verified == s.past.verified + if Verifies(s, Sup(e)) then 1 else 0
    ensures StartupStep(c, s, e).past.claims == s.past.claims
  {
    hide StartupStep, InStartup, SupEnabled, PastAfter;
    StartupPast(c, s, e);
    PastCounts(s.pc, s.past);
  }

  lemma StartupPast(c: Config, s: State, e: Ending)
    requires InStartup(s.pc) && SupEnabled(c, s, e)
    ensures StartupStep(c, s, e).past == if TookEffect(Sup(e)) then PastAfter(s.pc, s.past) else s.past
  {
    hide WorkerAfter, ControlAfter, NextStartup, StartupCan, GateAfter, InStartup;
  }

  lemma PastCounts(pc: Pc, h: History)
    ensures PastAfter(pc, h).verified == h.verified + if pc == VerifyFirst || pc == VerifySecond || pc == VerifyThird then 1 else 0
    ensures PastAfter(pc, h).claims == h.claims
  {
    match pc
    case VerifyFirst =>
    case VerifySecond =>
    case VerifyThird =>
    case OpenGate =>
    case LaunchWorker =>
    case ActivateGate =>
    case _ =>
  }

  lemma RecordingCountsNothing(c: Config, effect: Effect, pc: Pc, g: GateRow, h: History)
    ensures Recorded(c, effect, pc, g, h).verified == h.verified && Recorded(c, effect, pc, g, h).claims == h.claims
  {
    hide Stop;
  }

  lemma NoVerification(s: State, e: Event)
    requires !InStartup(s.pc)
    ensures !Verifies(s, e)
  {
    hide TookEffect;
  }

  lemma CleanupCounts(c: Config, s: State, e: Ending)
    requires !InStartup(s.pc)
    ensures CleanupStep(c, s, e).past.verified == s.past.verified && CleanupStep(c, s, e).past.claims == s.past.claims
    ensures !Verifies(s, Sup(e))
  {
    hide EndWorker, EndControl, CleanupTo, Ordered, Escapes, CleanupEffect, Stop, Recorded, Verifies, InStartup;
    RecordingCountsNothing(c, CleanupEffect(s.pc, e), s.pc, s.gate, s.past);
    NoVerification(s, Sup(e));
  }

  lemma StepCounts(c: Config, s: State, e: Event)
    requires Enabled(c, s, e)
    ensures Apply(c, s, e).past.verified == s.past.verified + if Verifies(s, e) then 1 else 0
    ensures Apply(c, s, e).past.claims == s.past.claims + if e == Work(TakeJob) then 1 else 0
  {
    hide StartupStep, CleanupStep, InStartup, SupEnabled, WorkerTurn, ControlTurn, WorkerEnabled, ControlEnabled;
    if e.Sup? {
      if InStartup(s.pc) { StartupCounts(c, s, e.ending); } else { CleanupCounts(c, s, e.ending); }
    } else {
      assert !Verifies(s, e);
    }
  }

  /** The two counters of the history count the verifications that passed and the jobs that were taken. */
  lemma {:induction false} HistoryCounts(c: Config, states: seq<State>, events: seq<Event>, n: nat)
    requires IsRun(c, states, events) && n < |states|
    ensures states[n].past.verified == VerificationsIn(states, events, n) && states[n].past.claims == ClaimsIn(events, n)
  {
    hide Apply, Enabled, Verifies, GateCheck;
    if n > 0 {
      HistoryCounts(c, states, events, n - 1);
      assert StepAt(c, states, events, n - 1);
      StepCounts(c, states[n - 1], events[n - 1]);
    }
  }

  /**
   The Worker's command channel is closed only after the gate row was stopped for this run, or was
   seen to be another run's, or the job was told to terminate, or with the gate never opened and the
   Worker never launched - if and only if no hazard occurred in the run.
   */
  lemma ChannelClosesAfterStop(c: Config, states: seq<State>, events: seq<Event>, k: nat)
    requires IsRun(c, states, events) && k < |states| && !states[k].worker.open
    ensures !HazardBefore(states, events, k)
            <==> || Happened(c, states, events, k, StopCommitted) || Happened(c, states, events, k, FoundFenced)
                 || Happened(c, states, events, k, KillAttempted)
                 || (!Happened(c, states, events, k, GateOpened) && !Happened(c, states, events, k, WorkerLaunched))
  {
    hide Happened, HazardBefore, IsRun;
    ChannelClosesInOrder(c, states, events, k);
    HistoryIsTrue(c, states, events, k, StopCommitted);
    HistoryIsTrue(c, states, events, k, FoundFenced);
    HistoryIsTrue(c, states, events, k, KillAttempted);
    HistoryIsTrue(c, states, events, k, GateOpened);
    HistoryIsTrue(c, states, events, k, WorkerLaunched);
  }

  // ------------------------------------------------------------------ the children

  /**
   A command can be sent exactly to a child that is alive; the application is left online exactly
   when a child has died; each awaited handshake is taken off its channel, and no other is.
   */
  lemma ChildrenAreWatched(c: Config, s: State, e: Ending)
    requires InStartup(s.pc) && SupEnabled(c, s, e)
    ensures var t, effect := SupStep(c, s, e), TookEffect(Sup(e));
            && (t.worker.says == if effect && (s.pc == AwaitPreflight || s.pc == AwaitWorker) then s.worker.says[1..] else s.worker.says)
            && (t.control.says == if effect && s.pc == AwaitControl then s.control.says[1..] else s.control.says)
            && (t.worker.pipe == if effect && s.pc == LaunchWorker then s.worker.pipe + [Launch]
                                 else if effect && s.pc == CheckComplete then s.worker.pipe + [Complete]
                                 else if effect && s.pc == SendClaim then s.worker.pipe + [Claim]
                                 else s.worker.pipe)
            && (t.control.pipe == if effect && s.pc == LaunchControl then s.control.pipe + [Launch] else s.control.pipe)
  {
    hide PastAfter, GateAfter;
  }

  lemma SendsToTheLiving(c: Config, s: State)
    ensures s.pc == LaunchWorker || s.pc == CheckComplete || s.pc == SendClaim ==> (SupEnabled(c, s, Succeeds) <==> WorkerAlive(s.worker))
    ensures s.pc == LaunchControl ==> (SupEnabled(c, s, Succeeds) <==> ControlAlive(s.control))
    ensures s.pc == Online ==> (SupEnabled(c, s, Succeeds) <==> !WorkerAlive(s.worker) || !ControlAlive(s.control))
  {
  }

  /**
   A Worker in its loop and a serving control child end exactly when something arrives on their channel
   or it is closed; taking a job changes nothing about the Worker, and a crash is reported.
   */
  lemma ChildrenWatchTheirChannel(c: Config, s: State)
    ensures WorkerEnabled(c, s, SeeClosed) <==> s.worker.phase == WLoop && (s.worker.pipe != [] || !s.worker.open)
    ensures ControlEnabled(s, StopServing) <==> s.control.phase == CServing && (s.control.pipe != [] || !s.control.open)
    ensures WorkerStepEffect(c, s, SeeClosed) == s.(worker := s.worker.(phase := WDead))
    ensures WorkerStepEffect(c, s, TakeJob).worker == s.worker && WorkerStepEffect(c, s, TakeJob).gate == s.gate
    ensures WorkerStepEffect(c, s, Crash).worker == s.worker.(phase := WDead, says := s.worker.says + [ChildFailed])
    ensures ControlStepEffect(s, StopServing) == s.(control := s.control.(phase := CDead))
    ensures ControlStepEffect(s, CrashControl).control == s.control.(phase := CDead, says := s.control.says + [ChildFailed])
  {
  }

  /** A child that was started but not put into the job is terminated on the spot, and the startup ends. */
  lemma StrayChildIsTerminated(c: Config, s: State, e: Ending)
    requires (s.pc == StartControl || s.pc == StartWorker) && (e == RaisesLate || e == InterruptedLate) && SupEnabled(c, s, e)
    ensures SupStep(c, s, e)
            == if s.pc == StartControl then s.(pc := Announce, control := s.control.(phase := if c.killWorks then CDead else CLaunch))
               else s.(pc := Announce, worker := s.worker.(phase := if c.killWorks then WDead else WLaunch))
  {
  }

  /**
   Where the cleanup goes: on success to the next of its steps; after an exception the gate stop is
   replaced by terminating the job and the two terminations go on, and any other step leaves for the
   release of the pipes, as an interrupt does anywhere before it.
   */
  lemma CleanupGoesTo(c: Config, s: State, e: Ending)
    requires !InStartup(s.pc) && s.pc != Done
    ensures var next := SupStep(c, s, e).pc;
            if s.pc == ReleasePipes then next == ReleaseJob
            else if s.pc == ReleaseJob then next == Done
            else if e == Succeeds then
              match s.pc
              case Announce => next == if s.past.gateOpened then StopGate else CloseWorker
              case StopGate => next == CloseWorker
              case TerminateJob => next == CloseWorker
              case CloseWorker => next == JoinWorker
              case JoinWorker => next == CloseControl
              case CloseControl => next == JoinControl
              case JoinControl => next == if WorkerAlive(s.worker) || ControlAlive(s.control) then TerminateLeft else ReleasePipes
              case _ => next == ReleasePipes
            else if (e == Raises || e == RaisesLate) && s.pc == StopGate then next == TerminateJob
            else if (e == Raises || e == RaisesLate) && s.pc == TerminateJob then next == CloseWorker
            else next == ReleasePipes
  {
    hide Recorded, EndWorker, EndControl, Ordered;
  }

  /** The Worker's channel is closed before control's, and both are closed at the end. */
  ghost predicate ClosedInTurn(s: State) {
    && (!s.control.open ==> !s.worker.open)
    && (s.pc == JoinWorker || s.pc == CloseControl || s.pc == JoinControl || s.pc == TerminateLeft ==> !s.worker.open)
    && (s.pc == JoinControl || s.pc == TerminateLeft ==> !s.control.open)
    && (s.pc == ReleaseJob || s.pc == Done ==> !s.worker.open && !s.control.open)
  }

  lemma StartupClosesNothing(c: Config, s: State, e: Ending)
    requires InStartup(s.pc) && SupEnabled(c, s, e) && ClosedInTurn(s)
    ensures ClosedInTurn(StartupStep(c, s, e))
  {
    hide PastAfter, GateAfter, StartupCan;
  }

  lemma CleanupClosesInTurn(c: Config, s: State, e: Ending)
    requires !InStartup(s.pc) && ClosedInTurn(s)
    ensures ClosedInTurn(CleanupStep(c, s, e))
  {
    hide Recorded, Stop, Ordered, WorkerAlive, ControlAlive;
  }

  lemma StepClosesInTurn(c: Config, s: State, e: Event)
    requires Enabled(c, s, e) && ClosedInTurn(s)
    ensures ClosedInTurn(Apply(c, s, e))
  {
    hide StartupStep, CleanupStep, SupEnabled;
    if e.Sup? {
      if InStartup(s.pc) { StartupClosesNothing(c, s, e.ending); } else { CleanupClosesInTurn(c, s, e.ending); }
    }
  }

  lemma {:induction false} ChannelsCloseInTurn(c: Config, states: seq<State>, events: seq<Event>, k: nat)
    requires IsRun(c, states, events) && k < |states|
    ensures ClosedInTurn(states[k])
  {
    hide Apply, Enabled, GateCheck, ClosedInTurn;
    if k == 0 {
      StartsOpen(states[0].gate);
    } else {
      ChannelsCloseInTurn(c, states, events, k - 1);
      assert StepAt(c, states, events, k - 1);
      StepClosesInTurn(c, states[k - 1], events[k - 1]);
    }
  }

  lemma StartsOpen(gate: GateRow)
    ensures ClosedInTurn(Init(gate))
  {
  }

  /** Nothing was raised once the cleanup had begun. */
  ghost predicate Orderly(states: seq<State>, events: seq<Event>, n: nat)
    requires |states| == |events| + 1 && n <= |events|
  {
    forall i :: 0 <= i < n && events[i].Sup? && !InStartup(states[i].pc) ==> events[i] == Sup(Succeeds)
  }

  /** No child is left when the pipes are released. */
  ghost predicate LeavesNone(c: Config, s: State) {
    c.killWorks && Releasing(s.pc) ==> !WorkerAlive(s.worker) && !ControlAlive(s.control)
  }

  lemma OrderlyStepLeavesNone(c: Config, s: State, e: Event)
    requires Enabled(c, s, e) && LeavesNone(c, s)
    requires e.Sup? && !InStartup(s.pc) ==> e == Sup(Succeeds)
    ensures LeavesNone(c, Apply(c, s, e))
  {
    hide Recorded, Stop, Ordered, PastAfter, GateAfter, StartupCan;
  }

  /**
   An orderly shutdown gives the children their time and then terminates what is left of them: with a
   working kill none is alive any more when the pipes are released, before the job object itself is.
   */
  lemma {:induction false} OrderlyShutdownLeavesNone(c: Config, states: seq<State>, events: seq<Event>, k: nat)
    requires IsRun(c, states, events) && k < |states| && Orderly(states, events, k)
    ensures LeavesNone(c, states[k])
  {
    hide Apply, Enabled, GateCheck, InStartup;
    if k == 0 {
      assert !Releasing(states[0].pc);
    } else {
      OrderlyShutdownLeavesNone(c, states, events, k - 1);
      assert StepAt(c, states, events, k - 1);
      OrderlyStepLeavesNone(c, states[k - 1], events[k - 1]);
    }
  }
}
