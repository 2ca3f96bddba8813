/** The local application's lifecycle. */
module Supervisor {
  /*
   One supervisor, a control child and a Worker child, their one-way channels, the claim gate, and
   every way a step can fail.

   A run interleaves supervisor, Worker, control and foreign steps. Each supervisor step may
   succeed, raise before or after its effect, or be interrupted (a KeyboardInterrupt, which
   `except Exception` does not catch).
   */

  import opened Common
  import opened ClaimGate

  datatype Config = Config(runId: string, workerId: string, checkOnly: bool, killWorks: bool)

  predicate SoundConfig(c: Config) {
    RunIdText(c.runId) && WorkerIdText(c.workerId)
  }

  datatype Pc =
    | StartControl | StartWorker | LaunchControl | AwaitControl | VerifyFirst
    | OpenGate | PrepareGate | LaunchWorker | AwaitPreflight | VerifySecond
    | CheckComplete | Revalidate | ActivateGate | SendClaim | AwaitWorker | VerifyThird | Online
    | Announce | StopGate | TerminateJob
    | CloseWorker | JoinWorker | CloseControl | JoinControl | TerminateLeft
    | ReleasePipes | ReleaseJob | Done

  datatype WorkerPc = WAbsent | WLaunch | WPreflight | WNext | WStart | WLoop | WDead

  datatype ControlPc = CAbsent | CLaunch | CStarting | CServing | CDead

  datatype Command = Launch | Claim | Complete

  datatype Handshake = ControlReady | PreflightReady | WorkerReady | ChildFailed

  /** A child with its command channel and what it has said on its ready channel. */
  datatype Child<Phase> = Child(phase: Phase, pipe: seq<Command>, open: bool, says: seq<Handshake>)

  /** What has happened so far; no step reads it. */
  datatype History = History(
    gateOpened: bool, workerLaunched: bool, verified: nat, preflightDone: bool, activated: bool,
    stopCommitted: bool, foundFenced: bool, killAttempted: bool, escapedEarly: bool, claims: nat)

  datatype State = State(
    pc: Pc, worker: Child<WorkerPc>, control: Child<ControlPc>, gate: GateRow, past: History)

  function Init(gate: GateRow): State {
    State(StartControl, Child(WAbsent, [], true, []), Child(CAbsent, [], true, []), gate,
          History(false, false, 0, false, false, false, false, false, false, 0))
  }

  // ---------------------------------------------------------- supervisor steps

  /** Startup steps in program order. */
  function Rank(pc: Pc): nat {
    match pc
    case StartControl => 0
    case StartWorker => 1
    case LaunchControl => 2
    case AwaitControl => 3
    case VerifyFirst => 4
    case OpenGate => 5
    case PrepareGate => 6
    case LaunchWorker => 7
    case AwaitPreflight => 8
    case VerifySecond => 9
    case CheckComplete => 10
    case Revalidate => 10
    case ActivateGate => 11
    case SendClaim => 12
    case AwaitWorker => 13
    case VerifyThird => 14
    case Online => 15
    case _ => 16
  }

  predicate Stopping(pc: Pc) {
    pc == Announce || pc == StopGate || pc == TerminateJob
  }

  predicate AfterStop(pc: Pc) {
    pc == CloseWorker || pc == JoinWorker || pc == CloseControl || pc == JoinControl || pc == TerminateLeft
  }

  predicate Releasing(pc: Pc) {
    pc == ReleasePipes || pc == ReleaseJob || pc == Done
  }

  predicate InStartup(pc: Pc) {
    !Stopping(pc) && !AfterStop(pc) && !Releasing(pc)
  }

  function NextStartup(c: Config, pc: Pc): Pc {
    match pc
    case StartControl => StartWorker
    case StartWorker => LaunchControl
    case LaunchControl => AwaitControl
    case AwaitControl => VerifyFirst
    case VerifyFirst => OpenGate
    case OpenGate => PrepareGate
    case PrepareGate => LaunchWorker
    case LaunchWorker => AwaitPreflight
    case AwaitPreflight => VerifySecond
    case VerifySecond => if c.checkOnly then CheckComplete else Revalidate
    case Revalidate => ActivateGate
    case ActivateGate => SendClaim
    case SendClaim => AwaitWorker
    case AwaitWorker => VerifyThird
    case VerifyThird => Online
    case _ => Announce
  }

  predicate WorkerAlive(w: Child<WorkerPc>) {
    w.phase != WAbsent && w.phase != WDead
  }

  predicate ControlAlive(k: Child<ControlPc>) {
    k.phase != CAbsent && k.phase != CDead
  }

  predicate Said<Phase>(k: Child<Phase>, h: Handshake) {
    k.says != [] && k.says[0] == h
  }

  /** Can the current startup step take effect? */
  predicate StartupCan(c: Config, s: State) {
    match s.pc
    case LaunchControl => ControlAlive(s.control)
    case AwaitControl => Said(s.control, ControlReady)
    case VerifyFirst => s.control.phase == CServing
    case LaunchWorker => WorkerAlive(s.worker)
    case AwaitPreflight => Said(s.worker, PreflightReady)
    case VerifySecond => s.control.phase == CServing
    case CheckComplete => WorkerAlive(s.worker)
    case ActivateGate => Activate(s.gate, c.runId, c.workerId).Some?
    case SendClaim => WorkerAlive(s.worker)
    case AwaitWorker => Said(s.worker, WorkerReady)
    case VerifyThird => s.control.phase == CServing
    case Online => !WorkerAlive(s.worker) || !ControlAlive(s.control)
    case _ => true
  }

  /** What a startup step does to the Worker and its channels. */
  function WorkerAfter(pc: Pc, w: Child<WorkerPc>): Child<WorkerPc> {
    match pc
    case StartWorker => w.(phase := WLaunch)
    case LaunchWorker => w.(pipe := w.pipe + [Launch])
    case CheckComplete => w.(pipe := w.pipe + [Complete])
    case SendClaim => w.(pipe := w.pipe + [Claim])
    case AwaitPreflight => w.(says := Rest(w.says))
    case AwaitWorker => w.(says := Rest(w.says))
    case _ => w
  }

  function ControlAfter(pc: Pc, k: Child<ControlPc>): Child<ControlPc> {
    match pc
    case StartControl => k.(phase := CLaunch)
    case LaunchControl => k.(pipe := k.pipe + [Launch])
    case AwaitControl => k.(says := Rest(k.says))
    case _ => k
  }

  function Rest<T>(xs: seq<T>): seq<T> {
    if xs == [] then [] else xs[1..]
  }

  function GateAfter(c: Config, pc: Pc, g: GateRow): GateRow
    requires pc == ActivateGate ==> Activate(g, c.runId, c.workerId).Some?
  {
    match pc
    case PrepareGate => Prepare(c.runId, c.workerId)
    case ActivateGate => Activate(g, c.runId, c.workerId).value
    case _ => g
  }

  function PastAfter(pc: Pc, h: History): History {
    match pc
    case VerifyFirst => h.(verified := h.verified + 1)
    case VerifySecond => h.(verified := h.verified + 1)
    case VerifyThird => h.(verified := h.verified + 1)
    case OpenGate => h.(gateOpened := true)
    case LaunchWorker => h.(workerLaunched := true)
    case ActivateGate => h.(activated := true)
    case _ => h
  }

  /** How a supervisor step can end. */
  datatype Ending = Succeeds | Raises | RaisesLate | Interrupted | InterruptedLate

  predicate Late(e: Ending) {
    e == RaisesLate || e == InterruptedLate
  }

  predicate SupEnabled(c: Config, s: State, e: Ending) {
    s.pc != Done && (InStartup(s.pc) && (e == Succeeds || Late(e)) ==> StartupCan(c, s))
  }

  /** A startup step: on any exception the cleanup begins, with or without the step's effect. */
  function StartupStep(c: Config, s: State, e: Ending): State
    requires SupEnabled(c, s, e) && InStartup(s.pc)
  {
    var pc := if e == Succeeds then NextStartup(c, s.pc) else Announce;
    if Late(e) && (s.pc == StartControl || s.pc == StartWorker) then Abandon(c, s).(pc := pc)
    else if e == Succeeds || Late(e) then
      State(pc, WorkerAfter(s.pc, s.worker), ControlAfter(s.pc, s.control),
            GateAfter(c, s.pc, s.gate), PastAfter(s.pc, s.past))
    else s.(pc := pc)
  }

  /** A started child that could not be assigned to the job is terminated on the spot. */
  function Abandon(c: Config, s: State): State {
    if s.pc == StartControl then s.(control := s.control.(phase := if c.killWorks then CDead else CLaunch))
    else s.(worker := s.worker.(phase := if c.killWorks then WDead else WLaunch))
  }

  /** The gate stop was ordered before the Worker's channel was touched, or could not matter. */
  predicate Ordered(h: History) {
    h.stopCommitted || h.foundFenced || h.killAttempted || (!h.gateOpened && !h.workerLaunched)
  }

  /** What a cleanup step gets done before it ends. */
  datatype Effect = Nothing | StopsGate | Kills | ClosesWorker | ClosesControl | ClosesBoth

  function CleanupEffect(pc: Pc, e: Ending): Effect {
    match pc
    case StopGate => if e == Succeeds || Late(e) then StopsGate else Nothing
    case TerminateJob => if e == Interrupted then Nothing else Kills
    case CloseWorker => if e == Succeeds then ClosesWorker else Nothing
    case CloseControl => if e == Succeeds then ClosesControl else Nothing
    case TerminateLeft => if e == Interrupted then Nothing else Kills
    case ReleasePipes => ClosesBoth
    case ReleaseJob => Kills
    case _ => Nothing
  }

  /** Does the exception leave `_cleanup_children`, so that only its `finally` remains? */
  predicate Escapes(pc: Pc, e: Ending) {
    match pc
    case StopGate => e == Interrupted || e == InterruptedLate
    case TerminateJob => e == Interrupted || e == InterruptedLate
    case TerminateLeft => e == Interrupted
    case ReleasePipes => false
    case ReleaseJob => false
    case _ => e != Succeeds
  }

  function CleanupTo(s: State, e: Ending): Pc {
    if Escapes(s.pc, e) then ReleasePipes
    else
      match s.pc
      case Announce => if s.past.gateOpened then StopGate else CloseWorker
      case StopGate => if e == Succeeds then CloseWorker else TerminateJob
      case TerminateJob => CloseWorker
      case CloseWorker => JoinWorker
      case JoinWorker => CloseControl
      case CloseControl => JoinControl
      case JoinControl => if WorkerAlive(s.worker) || ControlAlive(s.control) then TerminateLeft else ReleasePipes
      case TerminateLeft => ReleasePipes
      case ReleasePipes => ReleaseJob
      case _ => Done
  }

  function EndWorker(c: Config, f: Effect, w: Child<WorkerPc>): Child<WorkerPc> {
    if f == Kills && c.killWorks && WorkerAlive(w) then w.(phase := WDead)
    else if f == ClosesWorker || f == ClosesBoth then w.(open := false)
    else w
  }

  function EndControl(c: Config, f: Effect, k: Child<ControlPc>): Child<ControlPc> {
    if f == Kills && c.killWorks && ControlAlive(k) then k.(phase := CDead)
    else if f == ClosesControl || f == ClosesBoth then k.(open := false)
    else k
  }

  function Recorded(c: Config, f: Effect, pc: Pc, g: GateRow, h: History): History {
    if f == StopsGate then
      if Stop(g, c.runId).0 then h.(stopCommitted := true) else h.(foundFenced := true)
    else if f == Kills && pc != ReleaseJob then h.(killAttempted := true)
    else h
  }

  /** `_cleanup_children` and the `finally` around it. */
  function CleanupStep(c: Config, s: State, e: Ending): State {
    var f := CleanupEffect(s.pc, e);
    var h := Recorded(c, f, s.pc, s.gate, s.past);
    State(CleanupTo(s, e), EndWorker(c, f, s.worker), EndControl(c, f, s.control),
          if f == StopsGate then Stop(s.gate, c.runId).1 else s.gate,
          if Escapes(s.pc, e) then h.(escapedEarly := !Ordered(h)) else h)
  }

  function SupStep(c: Config, s: State, e: Ending): State
    requires SupEnabled(c, s, e)
  {
    if InStartup(s.pc) then StartupStep(c, s, e) else CleanupStep(c, s, e)
  }

  // ------------------------------------------------------------- child steps

  datatype WorkerStep = Receive | FinishPreflight | EnterLoop | TakeJob | SeeClosed | Crash

  predicate WorkerEnabled(c: Config, s: State, e: WorkerStep) {
    var w := s.worker;
    match e
    case Receive => (w.phase == WLaunch || w.phase == WNext) && (w.pipe != [] || !w.open)
    case FinishPreflight => w.phase == WPreflight
    case EnterLoop => w.phase == WStart
    case TakeJob => w.phase == WLoop && CanClaim(s.gate, c.runId, c.workerId)
    case SeeClosed => w.phase == WLoop && (w.pipe != [] || !w.open)
    case Crash => WorkerAlive(w)
  }

  /** The command a waiting Worker accepts; any other one ends it. */
  function Expected(c: Config, w: WorkerPc): Command {
    if w == WLaunch then Launch else if c.checkOnly then Complete else Claim
  }

  function WorkerTurn(c: Config, w: Child<WorkerPc>, e: WorkerStep): Child<WorkerPc> {
    match e
    case Receive =>
      if w.pipe == [] then w.(phase := WDead)
      else if w.pipe[0] != Expected(c, w.phase) then
        w.(pipe := w.pipe[1..], phase := WDead, says := w.says + [ChildFailed])
      else
        w.(pipe := w.pipe[1..], phase := if w.phase == WLaunch then WPreflight else if c.checkOnly then WDead else WStart)
    case FinishPreflight => w.(phase := WNext, says := w.says + [PreflightReady])
    case EnterLoop => w.(phase := WLoop, says := w.says + [WorkerReady])
    case TakeJob => w
    case SeeClosed => w.(phase := WDead)
    case Crash => w.(phase := WDead, says := w.says + [ChildFailed])
  }

  function WorkerStepEffect(c: Config, s: State, e: WorkerStep): State {
    s.(worker := WorkerTurn(c, s.worker, e),
       past := if e == FinishPreflight then s.past.(preflightDone := true)
               else if e == TakeJob then s.past.(claims := s.past.claims + 1)
               else s.past)
  }

  datatype ControlStep = ReceiveLaunch | Serve | StopServing | CrashControl

  predicate ControlEnabled(s: State, e: ControlStep) {
    var k := s.control;
    match e
    case ReceiveLaunch => k.phase == CLaunch && (k.pipe != [] || !k.open)
    case Serve => k.phase == CStarting
    case StopServing => k.phase == CServing && (k.pipe != [] || !k.open)
    case CrashControl => ControlAlive(k)
  }

  function ControlTurn(k: Child<ControlPc>, e: ControlStep): Child<ControlPc> {
    match e
    case ReceiveLaunch => if k.pipe == [] then k.(phase := CDead) else k.(pipe := k.pipe[1..], phase := CStarting)
    case Serve => k.(phase := CServing, says := k.says + [ControlReady])
    case StopServing => k.(phase := CDead)
    case CrashControl => k.(phase := CDead, says := k.says + [ChildFailed])
  }

  function ControlStepEffect(s: State, e: ControlStep): State {
    s.(control := ControlTurn(s.control, e))
  }

  // -------------------------------------------------------------------- runs

  /** `Foreign(row)`: some other run prepares, activates or stops the row for itself. */
  datatype Event = Sup(ending: Ending) | Work(work: WorkerStep) | Ctl(ctl: ControlStep) | Foreign(row: GateRow)

  predicate Enabled(c: Config, s: State, e: Event) {
    match e
    case Sup(ending) => SupEnabled(c, s, ending)
    case Work(w) => WorkerEnabled(c, s, w)
    case Ctl(k) => ControlEnabled(s, k)
    case Foreign(row) => GateCheck(row) && row.runId != Some(c.runId)
  }

  function Apply(c: Config, s: State, e: Event): State
    requires Enabled(c, s, e)
  {
    match e
    case Sup(ending) => SupStep(c, s, ending)
    case Work(w) => WorkerStepEffect(c, s, w)
    case Ctl(k) => ControlStepEffect(s, k)
    case Foreign(row) => s.(gate := row)
  }

  ghost predicate StepAt(c: Config, states: seq<State>, events: seq<Event>, k: nat)
    requires k < |events| && |states| == |events| + 1
  {
    Enabled(c, states[k], events[k]) && states[k + 1] == Apply(c, states[k], events[k])
  }

  /** A run: any finite interleaving from a start whose gate row belongs to some earlier run. */
  ghost predicate IsRun(c: Config, states: seq<State>, events: seq<Event>) {
    && SoundConfig(c)
    && |states| == |events| + 1
    && (exists gate :: GateCheck(gate) && gate.runId != Some(c.runId) && states[0] == Init(gate))
    && (forall k :: 0 <= k < |events| ==> StepAt(c, states, events, k))
  }

  // --------------------------------------------------------------- invariant

  predicate Claiming(w: WorkerPc) {
    w == WStart || w == WLoop
  }

  predicate Preflighted(w: WorkerPc) {
    w == WNext || Claiming(w)
  }

  /** What is known at each startup step. */
  ghost predicate Progress(c: Config, pc: Pc, h: History) {
    InStartup(pc) ==>
      && (Rank(pc) > 4 ==> h.verified >= 1)
      && (Rank(pc) > 5 ==> h.gateOpened)
      && (Rank(pc) > 8 ==> h.preflightDone)
      && (Rank(pc) > 9 ==> h.verified >= 2 && (pc == CheckComplete <==> c.checkOnly))
      && (Rank(pc) > 11 ==> h.activated)
      && !h.stopCommitted && !h.foundFenced && !h.killAttempted && !h.escapedEarly
  }

  ghost predicate Channels(c: Config, w: Child<WorkerPc>, h: History) {
    && (PreflightReady in w.says ==> h.preflightDone)
    && (Claim in w.pipe ==> h.activated)
    && (Preflighted(w.phase) ==> h.preflightDone)
    && (Claiming(w.phase) ==> h.activated)
  }

  ghost predicate Earned(c: Config, h: History) {
    && (h.workerLaunched ==> h.gateOpened)
    && (h.activated ==> h.verified >= 2 && h.preflightDone && !c.checkOnly)
  }

  ghost predicate Gated(c: Config, g: GateRow, h: History) {
    && GateCheck(g)
    && (g.runId == Some(c.runId) && g.accepting ==> h.activated && !h.stopCommitted)
  }

  ghost predicate Closing(pc: Pc, open: bool, h: History) {
    && (InStartup(pc) || Stopping(pc) ==> open && !h.escapedEarly)
    && (AfterStop(pc) ==> Ordered(h) && !h.escapedEarly)
    && (Releasing(pc) ==> (Ordered(h) <==> !h.escapedEarly))
  }

  ghost predicate Reaped(c: Config, s: State) {
    s.pc == Done && c.killWorks ==> !WorkerAlive(s.worker) && !ControlAlive(s.control)
  }

  ghost predicate Inv(c: Config, s: State) {
    && Progress(c, s.pc, s.past) && Channels(c, s.worker, s.past) && Earned(c, s.past)
    && Gated(c, s.gate, s.past) && Closing(s.pc, s.worker.open, s.past) && Reaped(c, s)
  }

  lemma StartupKeepsProgress(c: Config, s: State, e: Ending)
    requires Inv(c, s) && InStartup(s.pc) && SupEnabled(c, s, e)
    ensures Progress(c, StartupStep(c, s, e).pc, StartupStep(c, s, e).past)
    ensures Earned(c, StartupStep(c, s, e).past)
    ensures Closing(StartupStep(c, s, e).pc, StartupStep(c, s, e).worker.open, StartupStep(c, s, e).past)
    ensures Reaped(c, StartupStep(c, s, e))
  {
    hide Gated;
  }

  lemma StartupKeepsChannels(c: Config, s: State, e: Ending)
    requires Inv(c, s) && InStartup(s.pc) && SupEnabled(c, s, e)
    ensures Channels(c, StartupStep(c, s, e).worker, StartupStep(c, s, e).past)
  {
    hide Gated, Reaped, Closing;
  }

  lemma StartupKeepsGated(c: Config, s: State, e: Ending)
    requires SoundConfig(c) && Inv(c, s) && InStartup(s.pc) && SupEnabled(c, s, e)
    ensures Gated(c, StartupStep(c, s, e).gate, StartupStep(c, s, e).past)
  {
    hide Reaped, Channels, Closing;
  }

  lemma RecordingOnlyAdds(c: Config, f: Effect, pc: Pc, g: GateRow, h: History)
    requires Earned(c, h)
    ensures var t := Recorded(c, f, pc, g, h);
            && Earned(c, t) && t.escapedEarly == h.escapedEarly && t.gateOpened == h.gateOpened
            && (Ordered(h) ==> Ordered(t))
            && (f == StopsGate || (f == Kills && pc != ReleaseJob) ==> Ordered(t))
            && (f != StopsGate && (f != Kills || pc == ReleaseJob) ==> t == h)
  {
  }

  lemma CleanupKeepsClosing(c: Config, s: State, e: Ending)
    requires Closing(s.pc, s.worker.open, s.past) && Earned(c, s.past) && !InStartup(s.pc) && SupEnabled(c, s, e)
    ensures var t := CleanupStep(c, s, e);
            Closing(t.pc, t.worker.open, t.past) && Earned(c, t.past) && !InStartup(t.pc)
  {
    hide Stop, WorkerAlive, ControlAlive, EndControl, Rank, StartupCan, Recorded;
    RecordingOnlyAdds(c, CleanupEffect(s.pc, e), s.pc, s.gate, s.past);
    if Stopping(s.pc) {
      assert CleanupEffect(s.pc, e) != ClosesWorker && CleanupEffect(s.pc, e) != ClosesBoth;
    }
  }

  lemma CleanupKeepsGated(c: Config, s: State, e: Ending)
    requires Gated(c, s.gate, s.past) && !InStartup(s.pc) && SupEnabled(c, s, e)
    ensures Gated(c, CleanupStep(c, s, e).gate, CleanupStep(c, s, e).past)
  {
    hide CleanupTo, EndWorker, EndControl, RunIdText, WorkerIdText, Ordered, Escapes;
  }

  lemma CleanupKeepsChannels(c: Config, s: State, e: Ending)
    requires Channels(c, s.worker, s.past) && !InStartup(s.pc) && SupEnabled(c, s, e)
    ensures Channels(c, CleanupStep(c, s, e).worker, CleanupStep(c, s, e).past)
  {
    hide CleanupTo, Stop, EndControl, Ordered, Escapes;
  }

  lemma CleanupReaps(c: Config, s: State, e: Ending)
    requires !InStartup(s.pc) && SupEnabled(c, s, e)
    ensures Reaped(c, CleanupStep(c, s, e))
  {
    hide Stop, Ordered, Recorded;
  }

  lemma WorkKeepsInv(c: Config, s: State, e: WorkerStep)
    requires Inv(c, s) && WorkerEnabled(c, s, e)
    ensures Inv(c, WorkerStepEffect(c, s, e))
  {
  }

  lemma ControlKeepsInv(c: Config, s: State, e: ControlStep)
    requires Inv(c, s) && ControlEnabled(s, e)
    ensures Inv(c, ControlStepEffect(s, e))
  {
  }

  lemma StepKeepsInv(c: Config, s: State, e: Event)
    requires SoundConfig(c) && Inv(c, s) && Enabled(c, s, e)
    ensures Inv(c, Apply(c, s, e))
  {
    hide StartupStep, CleanupStep, WorkerStepEffect, ControlStepEffect, Channels, Closing, Earned;
    match e
    case Sup(ending) =>
      if InStartup(s.pc) {
        StartupKeepsProgress(c, s, ending);
        StartupKeepsChannels(c, s, ending);
        StartupKeepsGated(c, s, ending);
      } else {
        CleanupKeepsClosing(c, s, ending);
        CleanupKeepsGated(c, s, ending);
        CleanupKeepsChannels(c, s, ending);
        CleanupReaps(c, s, ending);
      }
    case Work(w) => WorkKeepsInv(c, s, w);
    case Ctl(k) => ControlKeepsInv(c, s, k);
    case Foreign(row) =>
  }

  lemma {:induction false} RunKeepsInv(c: Config, states: seq<State>, events: seq<Event>, k: nat)
    requires IsRun(c, states, events) && k < |states|
    ensures Inv(c, states[k])
  {
    if k == 0 {
      hide GateCheck;
    } else {
      RunKeepsInv(c, states, events, k - 1);
      assert StepAt(c, states, events, k - 1);
      StepKeepsInv(c, states[k - 1], events[k - 1]);
    }
  }

  // ---------------------------------------------------------------- theorems

  /**
   In every run, a job is claimed only after control was verified twice, the Worker's
   preflight succeeded and the gate was activated for this run, and never in a check-only run.
   */
  lemma ClaimsAreEarned(c: Config, states: seq<State>, events: seq<Event>, k: nat)
    requires IsRun(c, states, events) && k < |events| && events[k] == Work(TakeJob)
    ensures var h := states[k].past;
            h.verified >= 2 && h.preflightDone && h.activated && !h.stopCommitted && !c.checkOnly
    ensures states[k].worker.phase == WLoop
    ensures states[k].gate.runId == Some(c.runId) && states[k].gate.accepting && !states[k].gate.stopRequested
  {
    RunKeepsInv(c, states, events, k);
    assert StepAt(c, states, events, k);
  }

  /** A check-only run never opens the gate for itself and never lets the Worker near its claim loop. */
  lemma CheckOnlyNeverClaims(c: Config, states: seq<State>, events: seq<Event>, k: nat)
    requires IsRun(c, states, events) && c.checkOnly && k < |states|
    ensures !states[k].past.activated && !Claiming(states[k].worker.phase)
    ensures !CanClaim(states[k].gate, c.runId, c.workerId)
  {
    RunKeepsInv(c, states, events, k);
  }

  lemma SupKeepsStop(c: Config, s: State, e: Ending)
    requires SupEnabled(c, s, e)
    ensures s.past.stopCommitted ==> SupStep(c, s, e).past.stopCommitted
  {
    hide Ordered, CleanupTo, EndWorker, EndControl, WorkerAfter, ControlAfter, NextStartup;
    if InStartup(s.pc) {
      assert SupStep(c, s, e) == StartupStep(c, s, e);
    } else {
      assert SupStep(c, s, e) == CleanupStep(c, s, e);
    }
  }

  lemma StepKeepsStop(c: Config, s: State, e: Event)
    requires Enabled(c, s, e)
    ensures s.past.stopCommitted ==> Apply(c, s, e).past.stopCommitted
  {
    hide SupStep, SupEnabled, WorkerTurn, ControlTurn, WorkerEnabled, ControlEnabled, GateCheck;
    if e.Sup? {
      SupKeepsStop(c, s, e.ending);
    }
  }

  lemma {:induction false} StopStaysRecorded(c: Config, states: seq<State>, events: seq<Event>, j: nat, k: nat)
    requires IsRun(c, states, events) && j <= k < |states| && states[j].past.stopCommitted
    ensures states[k].past.stopCommitted
  {
    hide Init, GateCheck, Apply, Enabled;
    if j < k {
      StopStaysRecorded(c, states, events, j, k - 1);
      assert StepAt(c, states, events, k - 1);
      StepKeepsStop(c, states[k - 1], events[k - 1]);
    }
  }

  /** Once a stop has committed, the gate row never again accepts for this run, nor lets its Worker claim. */
  lemma StopIsForever(c: Config, states: seq<State>, events: seq<Event>, j: nat, k: nat)
    requires IsRun(c, states, events) && j <= k < |states| && states[j].past.stopCommitted
    ensures !(states[k].gate.runId == Some(c.runId) && states[k].gate.accepting)
    ensures !CanClaim(states[k].gate, c.runId, c.workerId)
  {
    StopStaysRecorded(c, states, events, j, k);
    RunKeepsInv(c, states, events, k);
  }

  /** No claim follows a committed stop. */
  lemma NoClaimAfterStop(c: Config, states: seq<State>, events: seq<Event>, j: nat, k: nat)
    requires IsRun(c, states, events) && j <= k < |events| && states[j].past.stopCommitted
    ensures events[k] != Work(TakeJob)
  {
    StopIsForever(c, states, events, j, k);
    assert StepAt(c, states, events, k);
  }

  /** When the supervisor is gone and terminating the job works, so are both children. */
  lemma NoChildOutlivesSupervisor(c: Config, states: seq<State>, events: seq<Event>, k: nat)
    requires IsRun(c, states, events) && k < |states| && states[k].pc == Done && c.killWorks
    ensures !WorkerAlive(states[k].worker) && !ControlAlive(states[k].control)
  {
    RunKeepsInv(c, states, events, k);
  }

  /**
   An exception that leaves the cleanup while the gate may still accept claims: while the
   shutdown is announced, during the gate stop before it committed, or before the kill that
   replaces a failed stop.
   */
  predicate Hazard(s: State, e: Event) {
    e.Sup? &&
    match s.pc
    case Announce => e.ending != Succeeds && s.past.gateOpened
    case StopGate => e.ending == Interrupted
    case TerminateJob => e.ending == Interrupted && !s.past.stopCommitted && !s.past.foundFenced
    case _ => false
  }

  ghost predicate HazardBefore(states: seq<State>, events: seq<Event>, k: nat)
    requires |states| == |events| + 1 && k <= |events|
  {
    exists j :: 0 <= j < k && Hazard(states[j], events[j])
  }

  /** Before the cleanup has settled anything, nothing orders the stop. */
  ghost predicate Unsettled(s: State) {
    && (InStartup(s.pc) || s.pc == Announce || s.pc == StopGate ==>
          !s.past.stopCommitted && !s.past.foundFenced && !s.past.killAttempted)
    && (s.pc == StopGate ==> s.past.gateOpened)
    && (s.pc == TerminateJob ==> s.past.gateOpened && !s.past.killAttempted)
  }

  lemma StartupStaysUnsettled(c: Config, s: State, e: Ending)
    requires Progress(c, s.pc, s.past) && Unsettled(s) && InStartup(s.pc) && SupEnabled(c, s, e)
    ensures Unsettled(SupStep(c, s, e)) && SupStep(c, s, e).past.escapedEarly == s.past.escapedEarly
  {
    hide WorkerAfter, ControlAfter, GateAfter, StartupCan;
  }

  lemma CleanupEscapes(c: Config, s: State, e: Ending)
    requires Earned(c, s.past) && Closing(s.pc, s.worker.open, s.past) && Unsettled(s)
    requires !InStartup(s.pc) && SupEnabled(c, s, e)
    ensures Unsettled(SupStep(c, s, e))
    ensures SupStep(c, s, e).past.escapedEarly <==> s.past.escapedEarly || Hazard(s, Sup(e))
  {
    hide Stop, WorkerAlive, ControlAlive, EndWorker, EndControl, Rank, StartupCan;
    assert SupStep(c, s, e) == CleanupStep(c, s, e);
    if Stopping(s.pc) {
    } else {
      assert CleanupEffect(s.pc, e) != StopsGate;
    }
  }

  lemma StepEscapes(c: Config, s: State, e: Event)
    requires Inv(c, s) && Unsettled(s) && Enabled(c, s, e)
    ensures Unsettled(Apply(c, s, e))
    ensures Apply(c, s, e).past.escapedEarly <==> s.past.escapedEarly || Hazard(s, e)
  {
    hide Channels, Gated, GateCheck, SupStep, SupEnabled, WorkerTurn, ControlTurn, WorkerEnabled, ControlEnabled, Earned,
      Closing, Progress, Reaped;
    if e.Sup? {
      if InStartup(s.pc) {
        StartupStaysUnsettled(c, s, e.ending);
      } else {
        CleanupEscapes(c, s, e.ending);
      }
    }
  }

  lemma {:induction false} EscapedExactlyOnHazard(c: Config, states: seq<State>, events: seq<Event>, k: nat)
    requires IsRun(c, states, events) && k < |states|
    ensures Unsettled(states[k])
    ensures states[k].past.escapedEarly <==> HazardBefore(states, events, k)
  {
    hide Hazard, Apply, Enabled, Inv;
    if k > 0 {
      EscapedExactlyOnHazard(c, states, events, k - 1);
      RunKeepsInv(c, states, events, k - 1);
      assert StepAt(c, states, events, k - 1);
      StepEscapes(c, states[k - 1], events[k - 1]);
    }
  }

  /**
   The shutdown order, with its exact exception. Once the Worker's command channel is closed,
   the gate stop had committed, or had found the gate fenced, or the job had been told to
   terminate, or there was nothing to stop - if and only if no hazard occurred in the run.
   */
  lemma ChannelClosesInOrder(c: Config, states: seq<State>, events: seq<Event>, k: nat)
    requires IsRun(c, states, events) && k < |states| && !states[k].worker.open
    ensures Ordered(states[k].past) <==> !HazardBefore(states, events, k)
  {
    RunKeepsInv(c, states, events, k);
    EscapedExactlyOnHazard(c, states, events, k);
  }

  // ------------------------------------------------- the exception is reachable

  ghost predicate Reaches(c: Config, s: State) {
    exists states: seq<State>, events: seq<Event> :: IsRun(c, states, events) && Last(states) == s
  }

  lemma ReachInit(c: Config, gate: GateRow)
    requires SoundConfig(c) && GateCheck(gate) && gate.runId != Some(c.runId)
    ensures Reaches(c, Init(gate))
  {
    assert IsRun(c, [Init(gate)], []);
  }

  lemma ReachStep(c: Config, s: State, e: Event)
    requires Reaches(c, s) && Enabled(c, s, e)
    ensures Reaches(c, Apply(c, s, e))
  {
    hide Apply, Enabled, Init, GateCheck;
    var states, events :| IsRun(c, states, events) && Last(states) == s;
    var more, steps := states + [Apply(c, s, e)], events + [e];
    forall k | 0 <= k < |steps| ensures StepAt(c, more, steps, k) {
      if k < |events| {
        assert StepAt(c, states, events, k);
      }
    }
    assert more[0] == states[0];
    assert IsRun(c, more, steps);
    assert Last(more) == Apply(c, s, e);
  }

  /** Control is up and verified; the Worker process waits for its first command. */
  function Verified(): State {
    State(OpenGate, Child(WLaunch, [], true, []), Child(CServing, [], true, []), SEED,
          History(false, false, 1, false, false, false, false, false, false, 0))
  }

  /** The gate is prepared and the Worker has passed its preflight. */
  function Prepared(c: Config): State {
    State(AwaitPreflight, Child(WNext, [], true, [PreflightReady]), Child(CServing, [], true, []),
          Prepare(c.runId, c.workerId), History(true, true, 1, true, false, false, false, false, false, 0))
  }

  /** The gate accepts, and the Worker is in its claim loop. */
  function Claimable(c: Config): State {
    State(AwaitWorker, Child(WLoop, [], true, [WorkerReady]), Child(CServing, [], true, []),
          GateRow(Some(c.runId), Some(c.workerId), true, true, false),
          History(true, true, 2, true, true, false, false, false, false, 0))
  }

  /** An interrupt came during the gate stop: the Worker's pipe is closed, the gate still accepts. */
  function Escaped(c: Config): State {
    State(ReleaseJob, Child(WLoop, [], false, []), Child(CServing, [], false, []),
          GateRow(Some(c.runId), Some(c.workerId), true, true, false),
          History(true, true, 3, true, true, false, false, false, true, 0))
  }

  /** A startup step that succeeds, without unfolding the other endings. */
  lemma Advance(c: Config, s: State) returns (t: State)
    requires Reaches(c, s) && InStartup(s.pc) && StartupCan(c, s)
    ensures Reaches(c, t)
    ensures t == State(NextStartup(c, s.pc), WorkerAfter(s.pc, s.worker), ControlAfter(s.pc, s.control),
                       GateAfter(c, s.pc, s.gate), PastAfter(s.pc, s.past))
  {
    hide Reaches;
    t := Apply(c, s, Sup(Succeeds));
    ReachStep(c, s, Sup(Succeeds));
  }

  lemma WorkerActs(c: Config, s: State, e: WorkerStep) returns (t: State)
    requires Reaches(c, s) && WorkerEnabled(c, s, e)
    ensures Reaches(c, t) && t == WorkerStepEffect(c, s, e)
  {
    hide Reaches;
    ReachStep(c, s, Work(e));
    t := WorkerStepEffect(c, s, e);
  }

  lemma ReachVerified(c: Config)
    requires SoundConfig(c)
    ensures Reaches(c, Verified())
  {
    hide Reaches, Apply, Enabled;
    ReachInit(c, SEED);
    var s1 := Advance(c, Init(SEED));
    var s2 := Advance(c, s1);
    var s3 := Advance(c, s2);
    assert s3.control == Child(CLaunch, [Launch], true, []);
    var s4 := ControlStepEffect(s3, ReceiveLaunch);
    ControlActs(c, s3, ReceiveLaunch);
    var s5 := ControlStepEffect(s4, Serve);
    ControlActs(c, s4, Serve);
    assert s5.control.says == [ControlReady];
    var s6 := Advance(c, s5);
    var s7 := Advance(c, s6);
    assert s7.control == Child(CServing, [], true, []);
    assert s7.past == Verified().past;
    assert s7 == Verified();
  }

  lemma ControlActs(c: Config, s: State, e: ControlStep)
    requires Reaches(c, s) && ControlEnabled(s, e)
    ensures Reaches(c, ControlStepEffect(s, e))
  {
    hide Reaches;
    ReachStep(c, s, Ctl(e));
  }

  lemma ReachPrepared(c: Config)
    requires SoundConfig(c)
    ensures Reaches(c, Prepared(c))
  {
    hide Reaches, Apply, Enabled;
    ReachVerified(c);
    var s1 := Advance(c, Verified());
    var s2 := Advance(c, s1);
    var s3 := Advance(c, s2);
    assert s3.worker == Child(WLaunch, [Launch], true, []);
    var s4 := WorkerActs(c, s3, Receive);
    var s5 := WorkerActs(c, s4, FinishPreflight);
    assert s5.worker == Prepared(c).worker;
    assert s5.past == Prepared(c).past;
    assert s5 == Prepared(c);
  }

  lemma ReachClaimable(c: Config)
    requires SoundConfig(c) && !c.checkOnly
    ensures Reaches(c, Claimable(c))
  {
    hide Reaches, Apply, Enabled;
    ReachPrepared(c);
    var s1 := Advance(c, Prepared(c));
    var s2 := Advance(c, s1);
    var s3 := Advance(c, s2);
    var s4 := Advance(c, s3);
    var s5 := Advance(c, s4);
    assert s5.worker == Child(WNext, [Claim], true, []);
    var s6 := WorkerActs(c, s5, Receive);
    var s7 := WorkerActs(c, s6, EnterLoop);
    assert s7.worker == Claimable(c).worker;
    assert s7.past == Claimable(c).past;
    assert s7 == Claimable(c);
  }

  /** The application is online and its gate accepts; the cleanup stands at `pc`. */
  function AtHazard(c: Config, pc: Pc): State {
    State(pc, Child(WLoop, [], true, []), Child(CServing, [], true, []),
          GateRow(Some(c.runId), Some(c.workerId), true, true, false),
          History(true, true, 3, true, true, false, false, false, false, 0))
  }

  lemma ReachOnline(c: Config)
    requires SoundConfig(c) && !c.checkOnly
    ensures Reaches(c, AtHazard(c, Online))
  {
    hide Reaches;
    ReachClaimable(c);
    var s1 := Advance(c, Claimable(c));
    var s2 := Advance(c, s1);
    assert s2 == AtHazard(c, Online);
  }

  /**
   Each of the three exceptions is reachable: the application is online, an interrupt stops it, and a
   second one arrives while the shutdown is announced, while the gate is being stopped, or, after a
   failed stop, before the job is terminated. The Worker's command channel is then closed and the
   Worker may still claim a job.
   */
  lemma HazardIsReachable(c: Config, pc: Pc)
    requires SoundConfig(c) && !c.checkOnly && Stopping(pc)
    ensures Reaches(c, AtHazard(c, pc)) && Hazard(AtHazard(c, pc), Sup(Interrupted))
    ensures Apply(c, Apply(c, AtHazard(c, pc), Sup(Interrupted)), Sup(Succeeds)) == Escaped(c)
    ensures Reaches(c, Escaped(c)) && Enabled(c, Escaped(c), Work(TakeJob)) && !Ordered(Escaped(c).past)
  {
    hide Reaches, Rank, StartupCan, StartupStep;
    ReachStopping(c, pc);
    var s := AtHazard(c, pc);
    var t := s.(pc := ReleasePipes, past := s.past.(escapedEarly := true));
    assert Apply(c, s, Sup(Interrupted)) == t;
    assert Apply(c, t, Sup(Succeeds)) == Escaped(c);
    ReachStep(c, s, Sup(Interrupted));
    ReachStep(c, t, Sup(Succeeds));
  }

  lemma ReachStopping(c: Config, pc: Pc)
    requires SoundConfig(c) && !c.checkOnly && Stopping(pc)
    ensures Reaches(c, AtHazard(c, pc))
  {
    hide Reaches, Rank, StartupCan, WorkerAfter, ControlAfter, GateAfter, PastAfter;
    ReachOnline(c);
    assert Apply(c, AtHazard(c, Online), Sup(Interrupted)) == AtHazard(c, Announce);
    ReachStep(c, AtHazard(c, Online), Sup(Interrupted));
    if pc != Announce {
      assert Apply(c, AtHazard(c, Announce), Sup(Succeeds)) == AtHazard(c, StopGate);
      ReachStep(c, AtHazard(c, Announce), Sup(Succeeds));
    }
    if pc == TerminateJob {
      assert Apply(c, AtHazard(c, StopGate), Sup(Raises)) == AtHazard(c, TerminateJob);
      ReachStep(c, AtHazard(c, StopGate), Sup(Raises));
    }
  }
}
