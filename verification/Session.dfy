/** One ACP session as a step system.  Every `await` is a point where any other step
    may come in between; what happened is written to a log that no step reads. */
module Session {
  import opened Options

  datatype Mode = Build | Plan

  /** What an observer of the session sees. */
  datatype Event =
    | Interrupted(close: bool)
    | Opened
    | Implemented(at: nat, mode: Mode)
    | TurnStarted(agent: nat)
    | RebuildStarted(agent: nat)
    | Retired(agent: nat)
    | CleanupStarted(agent: nat)
    | CleanupSucceeded(agent: nat)
    | Unregistered

  /** An open approval prompt: the generation it was opened in, the agent at hand when
      it was approved, and the place of its `Opened` event in the log. */
  datatype Prompt = Prompt(generation: nat, agent: nat, at: nat)

  /** How the awaited turn came to an end. */
  datatype Outcome = Ended | Stopped | Broken(cancelled: bool)

  /** Where the holder of the execution lock is suspended. */
  datatype Point =
    | Free
    | InTurn
    | Reporting(outcome: Outcome)
    | Asking(prompt: Prompt)
    | Settling
    | Rebuilding(replaced: nat, previous: Mode)
    | Sweeping
    | Announcing
    | Delivering
    | Tidying
    | Retiring
    | CloseGathering
    | CloseShutdown
    | CloseFlushing
    | CloseRetiring
    | CloseCleaning

  /** On whose behalf: a client request, the background worker resuming a plan, or the
      background worker presenting results. */
  datatype Holder = Client | Resumer | Presenter

  datatype Cleanup = Running | Failed

  datatype State = State(
    closed: bool,
    registered: bool,
    paused: bool,
    approved: Option<nat>,
    generation: nat,
    mode: Mode,
    agent: nat,
    unused: nat,
    retired: seq<nat>,
    fence: map<nat, Cleanup>,
    point: Point,
    holder: Holder,
    frames: seq<Prompt>,
    log: seq<Event>)

  function Start(mode: Mode): State
  {
    State(false, true, false, None, 0, mode, 0, 1, [], map[], Free, Client, [], [])
  }

  datatype Answer = Implement(clear: bool, jobs: bool) | Decline | Error | Dropped

  datatype Step =
    | Cancel
    | StartClose
    | CleanupEnds(agent: nat, ok: bool)
    | StartPrompt
    | StartRebuild(mode: Mode)
    | WorkerWakes
    | TurnEnds(outcome: Outcome)
    | UsageSent(plan: bool)
    | Answered(answer: Answer)
    | Settled
    | Constructed(jobs: bool)
    | Swept
    | Announced
    | Raises(cancelled: bool)
    | Delivered(turn: bool)
    | DeliveryFails
    | Tidy(jobs: bool)
    | CloseLocks
    | CloseProceeds
    | CloseFails

  // ---- shared pieces of code ---------------------------------------------------------------------

  /** The log is only ever appended to. */
  predicate Extends(log: seq<Event>, longer: seq<Event>)
  {
    log <= longer
  }

  function Log(s: State, e: Event): (r: State)
    ensures Extends(s.log, r.log)
  {
    s.(log := s.log + [e])
  }

  /** Nothing may start: the session is closing or a cleanup is pending or failed. */
  predicate Barred(s: State)
  {
    s.closed || s.fence != map[]
  }

  function Without(xs: seq<nat>, x: nat): (r: seq<nat>)
    ensures forall y :: y in r <==> y in xs && y != x
  {
    if xs == [] then []
    else
      assert xs == [xs[0]] + xs[1..];
      if xs[0] == x then Without(xs[1..], x) else [xs[0]] + Without(xs[1..], x)
  }

  function Retire(s: State, agent: nat): (r: State)
    ensures Extends(s.log, r.log)
  {
    Log(s.(retired := s.retired + [agent]), Retired(agent))
  }

  /** A cleanup that is running or has failed is not started again. */
  function StartCleanup(s: State, agent: nat): (r: State)
    ensures Extends(s.log, r.log)
  {
    if agent in s.fence then s
    else
      var s' := if agent in s.retired then s else Retire(s, agent);
      Log(s'.(fence := s'.fence[agent := Running]), CleanupStarted(agent))
  }

  /** Every frame returns and the lock's holder goes on. */
  function Return(s: State): (r: State)
    ensures r.log == s.log && !r.point.InTurn?
  {
    var s' := s.(frames := []);
    match s.holder
    case Client => s'.(point := Free)
    case Resumer => s'.(point := if Barred(s) then Free else Delivering)
    case Presenter => s'.(point := Tidying)
  }

  /** The handlers of the suspended approvals, innermost first. */
  function Handled(s: State, frames: seq<Prompt>, cancelled: bool): (r: State)
    ensures r.log == s.log
    decreases |frames|
  {
    if frames == [] then s
    else
      var p := frames[|frames| - 1];
      var s' :=
        if cancelled then
          if p.generation == s.generation then s.(approved := None, generation := s.generation + 1) else s
        else if s.agent == p.agent then s.(approved := None)
        else s;
      Handled(s', frames[..|frames| - 1], cancelled)
  }

  /** An exception passes through all frames and releases the lock. */
  function Unwind(s: State, cancelled: bool): (r: State)
    ensures r.log == s.log && !r.point.InTurn?
  {
    var s' := Handled(s, s.frames, cancelled);
    s'.(frames := [], point := Free, paused := s'.paused || (!s.holder.Client? && !cancelled))
  }

  function RunTurn(s: State): (r: State)
    ensures Extends(s.log, r.log)
    ensures r.point.InTurn? ==> r.log == s.log + [TurnStarted(s.agent)]
  {
    if Barred(s) then Return(s) else Log(s, TurnStarted(s.agent)).(point := InTurn)
  }

  /** The approved plan is taken and its turn started in one stretch. */
  function Resume(s: State): (r: State)
    ensures Extends(s.log, r.log)
    ensures r.point.InTurn? ==>
      s.approved.Some? && r.log == s.log + [Implemented(s.approved.value, s.mode), TurnStarted(s.agent)]
  {
    if s.approved.None? || Barred(s) || s.paused || s.mode != Build then Return(s)
    else RunTurn(Log(s.(approved := None), Implemented(s.approved.value, s.mode)))
  }

  function OpenPrompt(s: State): (r: State)
    ensures Extends(s.log, r.log) && !r.point.InTurn?
  {
    if Barred(s) || s.paused || s.approved.Some? then Return(s)
    else Log(s, Opened).(point := Asking(Prompt(s.generation, s.agent, |s.log|)))
  }

  function CheckedAnnounce(s: State, p: Prompt): (r: State)
    ensures r.log == s.log && !r.point.InTurn?
  {
    if s.closed || p.generation != s.generation then Return(s) else s.(point := Announcing)
  }

  /** After approval: switch to build mode if need be. */
  function SwitchMode(s: State, p: Prompt): (r: State)
    ensures Extends(s.log, r.log) && !r.point.InTurn?
  {
    if s.mode == Build then CheckedAnnounce(s, p)
    else if Barred(s) then Unwind(s, false)
    else Log(s, RebuildStarted(s.agent)).(mode := Build, point := Rebuilding(s.agent, s.mode))
  }

  function CheckedSwitch(s: State, p: Prompt): (r: State)
    ensures Extends(s.log, r.log) && !r.point.InTurn?
  {
    if s.closed || p.generation != s.generation then Return(s) else SwitchMode(s, p)
  }

  /** A rebuild is over: a configuration change is done, an approval goes on. */
  function Rebuilt(s: State): (r: State)
    ensures r.log == s.log && !r.point.InTurn?
  {
    if s.frames == [] then s.(point := Free) else CheckedAnnounce(s, s.frames[|s.frames| - 1])
  }

  // ---- the steps ------------------------------------------------------------------------------------

  /** Both a cancel and a close: no approval may outlive it. */
  function Interrupt(s: State, close: bool): (r: State)
    ensures Extends(s.log, r.log)
  {
    Log(s.(paused := true, approved := None, generation := s.generation + 1, closed := s.closed || close),
        Interrupted(close))
  }

  function EndCleanup(s: State, agent: nat, ok: bool): (r: State)
    ensures Extends(s.log, r.log)
  {
    if agent !in s.fence || s.fence[agent] != Running then s
    else if !ok then s.(fence := s.fence[agent := Failed])
    else Log(s.(fence := s.fence - {agent}, retired := Without(s.retired, agent)), CleanupSucceeded(agent))
  }

  function Acquire(s: State, holder: Holder): State
  {
    s.(holder := holder, frames := [])
  }

  function BeginPrompt(s: State): (r: State)
    ensures Extends(s.log, r.log)
  {
    if Barred(s) then s else RunTurn(Acquire(s, Client).(paused := false))
  }

  function BeginRebuild(s: State, mode: Mode): (r: State)
    ensures Extends(s.log, r.log)
  {
    if Barred(s) then s
    else Log(Acquire(s, Client), RebuildStarted(s.agent)).(mode := mode, point := Rebuilding(s.agent, s.mode))
  }

  function WakeWorker(s: State): (r: State)
    ensures Extends(s.log, r.log)
  {
    if Barred(s) then s else Resume(Acquire(s, Resumer))
  }

  function ReportUsage(s: State, outcome: Outcome, plan: bool): (r: State)
    ensures Extends(s.log, r.log) && !r.point.InTurn?
  {
    match outcome
    case Broken(cancelled) => Unwind(s, cancelled)
    case Stopped => Return(s)
    case Ended => if plan && !s.closed then OpenPrompt(s) else Return(s)
  }

  function TakeAnswer(s: State, p: Prompt, answer: Answer): (r: State)
    ensures Extends(s.log, r.log) && !r.point.InTurn?
  {
    match answer
    case Error => Return(s)
    case Decline => Return(s)
    case Dropped => if s.closed || p.generation != s.generation then Return(s) else Unwind(s, true)
    case Implement(clear, jobs) =>
      if Barred(s) || p.generation != s.generation then Return(s)
      else
        var s' := s.(approved := Some(p.at), frames := s.frames + [p.(agent := s.agent)]);
        if clear && jobs then s'.(point := Settling)
        else SwitchMode(s', p)
  }

  /** Children of background jobs keep the old agent alive; otherwise it is cleaned up. */
  function LayOff(s: State, replaced: nat, jobs: bool): (r: State)
    ensures Extends(s.log, r.log) && !r.point.InTurn?
  {
    if jobs then Rebuilt(Retire(s, replaced)) else StartCleanup(s, replaced).(point := Sweeping)
  }

  function Renewed(s: State): State
  {
    s.(agent := s.unused, unused := s.unused + 1)
  }

  /** Only a failed construction leaves the agent, and then the mode, as they were. */
  function Raise(s: State, cancelled: bool): (r: State)
    ensures Extends(s.log, r.log) && (r.point.InTurn? ==> s.point.InTurn?)
  {
    match s.point
    case Reporting(_) => Unwind(s, cancelled)
    case Settling => Unwind(s, cancelled)
    case Announcing => Unwind(s, cancelled)
    case Rebuilding(_, previous) => Unwind(s.(mode := previous), cancelled)
    case Sweeping => if cancelled then Unwind(s, true) else Rebuilt(s)
    case Delivering => Unwind(s, cancelled)
    case Retiring => Unwind(s, cancelled)
    case _ => s
  }

  function TidyUp(s: State, jobs: bool): (r: State)
    ensures Extends(s.log, r.log) && !r.point.InTurn?
  {
    if jobs || s.retired == [] || s.fence != map[] then s.(point := Free)
    else StartCleanup(s, s.retired[0]).(point := Retiring)
  }

  function RetireForClose(s: State): (r: State)
    ensures Extends(s.log, r.log) && !r.point.InTurn?
  {
    if s.retired != [] then StartCleanup(s, s.retired[0]).(point := CloseRetiring)
    else if s.fence != map[] then s.(point := Free)
    else s.(point := CloseCleaning)
  }

  function ProceedClose(s: State): (r: State)
    ensures Extends(s.log, r.log) && (r.point.InTurn? ==> s.point.InTurn?)
  {
    match s.point
    case CloseGathering => s.(point := if s.fence == map[] then CloseShutdown else Free)
    case CloseShutdown => s.(point := if s.fence == map[] then CloseFlushing else Free)
    case CloseFlushing => RetireForClose(s)
    case CloseRetiring => RetireForClose(s)
    case CloseCleaning => Log(s, Unregistered).(registered := false, point := Free)
    case _ => s
  }

  predicate IsClosing(p: Point)
  {
    p.CloseGathering? || p.CloseShutdown? || p.CloseFlushing? || p.CloseRetiring? || p.CloseCleaning?
  }

  /** A step that is not possible in `s` leaves it as it is. */
  function Next(s: State, step: Step): (r: State)
    ensures Extends(s.log, r.log)
  {
    match step
    case Cancel => Interrupt(s, false)
    case StartClose => Interrupt(s, true)
    case CleanupEnds(agent, ok) => EndCleanup(s, agent, ok)
    case StartPrompt => if s.point.Free? then BeginPrompt(s) else s
    case StartRebuild(mode) => if s.point.Free? then BeginRebuild(s, mode) else s
    case WorkerWakes => if s.point.Free? then WakeWorker(s) else s
    case TurnEnds(outcome) => if s.point.InTurn? then s.(point := Reporting(outcome)) else s
    case UsageSent(plan) => if s.point.Reporting? then ReportUsage(s, s.point.outcome, plan) else s
    case Answered(answer) => if s.point.Asking? then TakeAnswer(s, s.point.prompt, answer) else s
    case Settled => if s.point.Settling? && s.frames != [] then CheckedSwitch(s, s.frames[|s.frames| - 1]) else s
    case Constructed(jobs) => if s.point.Rebuilding? then LayOff(Renewed(s), s.point.replaced, jobs) else s
    case Swept => if s.point.Sweeping? then Rebuilt(s) else if s.point.Retiring? then s.(point := Tidying) else s
    case Announced => if s.point.Announcing? then Resume(s) else s
    case Raises(cancelled) => Raise(s, cancelled)
    case Delivered(turn) =>
      if !s.point.Delivering? then s
      else if turn && !s.paused then RunTurn(s.(holder := Presenter))
      else s.(point := Tidying)
    case DeliveryFails => if s.point.Delivering? then s.(point := Free) else s
    case Tidy(jobs) => if s.point.Tidying? then TidyUp(s, jobs) else s
    case CloseLocks =>
      if s.point.Free? && s.closed && s.registered then s.(point := CloseGathering, frames := []) else s
    case CloseProceeds => ProceedClose(s)
    case CloseFails => if IsClosing(s.point) then s.(point := Free) else s
  }

  function Run(s: State, steps: seq<Step>): State
    decreases |steps|
  {
    if steps == [] then s else Run(Next(s, steps[0]), steps[1..])
  }

  // ---- what the log must never show ----------------------------------------------------------------

  /** Neither cancelled nor closed since place `from`. */
  predicate Quiet(log: seq<Event>, from: nat)
  {
    forall i | from <= i < |log| :: !log[i].Interrupted?
  }

  ghost predicate Unfenced(log: seq<Event>)
  {
    forall a | CleanupStarted(a) in log :: CleanupSucceeded(a) in log
  }

  ghost predicate AllClean(log: seq<Event>)
  {
    forall a | Retired(a) in log :: CleanupSucceeded(a) in log
  }

  predicate WasOpened(log: seq<Event>, at: nat)
  {
    at < |log| && log[at].Opened?
  }

  predicate NeverImplemented(log: seq<Event>, at: nat)
  {
    forall e | e in log && e.Implemented? :: e.at != at
  }

  /** What must be true of the log before an event. */
  ghost predicate Allowed(before: seq<Event>, e: Event)
  {
    match e
    case Interrupted(_) => true
    case Opened => Interrupted(true) !in before && Unfenced(before)
    case Implemented(at, mode) =>
      && mode == Build && WasOpened(before, at) && Quiet(before, at) && NeverImplemented(before, at)
      && Interrupted(true) !in before && Unfenced(before)
    case TurnStarted(agent) => Interrupted(true) !in before && Unfenced(before) && Retired(agent) !in before
    case RebuildStarted(agent) => Interrupted(true) !in before && Unfenced(before) && Retired(agent) !in before
    case Retired(agent) => Retired(agent) !in before
    case CleanupStarted(agent) => Retired(agent) in before && CleanupStarted(agent) !in before
    case CleanupSucceeded(agent) => CleanupStarted(agent) in before && CleanupSucceeded(agent) !in before
    case Unregistered => Interrupted(true) in before && AllClean(before) && Unfenced(before)
  }

  ghost predicate LogSafe(log: seq<Event>)
  {
    forall i | 0 <= i < |log| :: Allowed(log[..i], log[i])
  }

  lemma {:induction false} LogSafeAppend(log: seq<Event>, e: Event)
    requires LogSafe(log) && Allowed(log, e)
    ensures LogSafe(log + [e])
  {
    var all := log + [e];
    assert all[..|log|] == log;
    forall i | 0 <= i < |all| ensures Allowed(all[..i], all[i]) {
      if i < |log| {
        assert all[..i] == log[..i];
      }
    }
  }

  // ---- the invariant -----------------------------------------------------------------------------------

  /** The fence and the retired list are what the log says is still to be cleaned up,
      and the agent at hand is not among the retired. */
  ghost predicate FenceOk(log: seq<Event>, fence: map<nat, Cleanup>, retired: seq<nat>, agent: nat, unused: nat)
  {
    && (forall a: nat :: a in fence <==> CleanupStarted(a) in log && CleanupSucceeded(a) !in log)
    && (forall a: nat :: a in retired <==> Retired(a) in log && CleanupSucceeded(a) !in log)
    && (forall a: nat | CleanupStarted(a) in log :: Retired(a) in log)
    && (forall a: nat | CleanupSucceeded(a) in log :: CleanupStarted(a) in log)
    && (forall a: nat | Retired(a) in log :: a < unused)
    && agent < unused && Retired(agent) !in log
  }

  /** A prompt of the current generation has not been interrupted. */
  predicate PromptOk(log: seq<Event>, generation: nat, p: Prompt)
  {
    p.generation <= generation && WasOpened(log, p.at) && (p.generation == generation ==> Quiet(log, p.at))
  }

  predicate PromptsOk(log: seq<Event>, generation: nat, frames: seq<Prompt>)
  {
    forall p | p in frames :: PromptOk(log, generation, p)
  }

  /** An approved plan was asked for in an open session, nothing interrupted it since,
      and it has not been implemented. */
  predicate ApprovalOk(log: seq<Event>, closed: bool, approved: Option<nat>)
  {
    approved.Some? ==>
      !closed && WasOpened(log, approved.value) && Quiet(log, approved.value) && NeverImplemented(log, approved.value)
  }

  ghost predicate Core(s: State)
  {
    && LogSafe(s.log) && (s.closed <==> Interrupted(true) in s.log)
    && FenceOk(s.log, s.fence, s.retired, s.agent, s.unused)
    && PromptsOk(s.log, s.generation, s.frames) && ApprovalOk(s.log, s.closed, s.approved)
  }

  predicate Placed(s: State)
  {
    && (s.registered || (s.closed && s.retired == [] && s.fence == map[] && s.point.Free?))
    && (IsClosing(s.point) ==> s.closed)
    && match s.point
       case InTurn => s.fence == map[]
       case Asking(p) => s.approved.None? && PromptOk(s.log, s.generation, p) && NeverImplemented(s.log, p.at)
       case Rebuilding(replaced, _) => replaced == s.agent
       case CloseCleaning => s.retired == [] && s.fence == map[]
       case _ => true
  }

  ghost predicate Invariant(s: State)
  {
    Core(s) && Placed(s)
  }

  // ---- every piece of code keeps it -------------------------------------------------------------------

  lemma {:induction false} FenceMeans(s: State)
    requires Core(s)
    ensures s.fence == map[] <==> Unfenced(s.log)
    ensures s.retired == [] ==> AllClean(s.log)
  {
    if s.fence != map[] {
      var a :| a in s.fence;
    }
    if !Unfenced(s.log) {
      var a :| CleanupStarted(a) in s.log && CleanupSucceeded(a) !in s.log;
      assert a in s.fence;
    }
    if s.retired == [] {
      forall a | Retired(a) in s.log ensures CleanupSucceeded(a) in s.log {
        assert a !in s.retired;
      }
    }
  }

  /** Events that concern neither interruptions nor cleanups. */
  predicate Harmless(e: Event)
  {
    e.Opened? || e.Implemented? || e.TurnStarted? || e.RebuildStarted? || e.Unregistered?
  }

  lemma {:induction false} FenceLog(log: seq<Event>, e: Event, fence: map<nat, Cleanup>, retired: seq<nat>, agent: nat,
                                    unused: nat)
    requires FenceOk(log, fence, retired, agent, unused) && (Harmless(e) || e.Interrupted?)
    ensures FenceOk(log + [e], fence, retired, agent, unused)
  {
    var all := log + [e];
    forall a: nat ensures (CleanupStarted(a) in all <==> CleanupStarted(a) in log)
      && (CleanupSucceeded(a) in all <==> CleanupSucceeded(a) in log) && (Retired(a) in all <==> Retired(a) in log)
    {
    }
  }

  lemma {:induction false} PromptLog(log: seq<Event>, e: Event, generation: nat, p: Prompt)
    requires PromptOk(log, generation, p) && !e.Interrupted?
    ensures PromptOk(log + [e], generation, p)
  {
  }

  lemma {:induction false} PlansLog(log: seq<Event>, e: Event, generation: nat, frames: seq<Prompt>, closed: bool,
                                    approved: Option<nat>)
    requires PromptsOk(log, generation, frames) && ApprovalOk(log, closed, approved)
    requires !e.Interrupted? && (e.Implemented? ==> approved.None?)
    ensures PromptsOk(log + [e], generation, frames) && ApprovalOk(log + [e], closed, approved)
  {
    forall p | p in frames ensures PromptOk(log + [e], generation, p) {
      PromptLog(log, e, generation, p);
    }
  }

  /** Everything but the fence. */
  lemma {:induction false} CoreLogPlans(s: State, e: Event)
    requires Core(s) && Allowed(s.log, e) && !e.Interrupted? && (e.Implemented? ==> s.approved.None?)
    ensures var log := s.log + [e];
      && LogSafe(log) && (s.closed <==> Interrupted(true) in log)
      && PromptsOk(log, s.generation, s.frames) && ApprovalOk(log, s.closed, s.approved)
  {
    LogSafeAppend(s.log, e);
    PlansLog(s.log, e, s.generation, s.frames, s.closed, s.approved);
  }

  lemma {:induction false} CoreLog(s: State, e: Event)
    requires Core(s) && Harmless(e) && Allowed(s.log, e) && (e.Implemented? ==> s.approved.None?)
    ensures Core(Log(s, e))
  {
    CoreLogPlans(s, e);
    FenceLog(s.log, e, s.fence, s.retired, s.agent, s.unused);
  }

  lemma {:induction false} ReturnKeeps(s: State)
    requires Core(s) && s.registered
    ensures Invariant(Return(s))
  {
    assert PromptsOk(s.log, s.generation, []);
  }

  lemma {:induction false} HandledKeeps(s: State, frames: seq<Prompt>, cancelled: bool)
    requires Core(s) && s.registered
    ensures var s' := Handled(s, frames, cancelled);
      Core(s') && s'.registered && s'.log == s.log && s'.frames == s.frames
    decreases |frames|
  {
    if frames != [] {
      var p := frames[|frames| - 1];
      var s' :=
        if cancelled then
          if p.generation == s.generation then s.(approved := None, generation := s.generation + 1) else s
        else if s.agent == p.agent then s.(approved := None)
        else s;
      HandledKeeps(s', frames[..|frames| - 1], cancelled);
    }
  }

  lemma {:induction false} UnwindKeeps(s: State, cancelled: bool)
    requires Core(s) && s.registered
    ensures Invariant(Unwind(s, cancelled))
  {
    HandledKeeps(s, s.frames, cancelled);
  }

  lemma {:induction false} RunTurnKeeps(s: State)
    requires Core(s) && s.registered
    ensures Invariant(RunTurn(s))
  {
    if Barred(s) {
      ReturnKeeps(s);
    } else {
      FenceMeans(s);
      CoreLog(s, TurnStarted(s.agent));
    }
  }

  lemma {:induction false} ResumeKeeps(s: State)
    requires Core(s) && s.registered
    ensures Invariant(Resume(s))
  {
    if s.approved.None? || Barred(s) || s.paused || s.mode != Build {
      ReturnKeeps(s);
    } else {
      FenceMeans(s);
      CoreLog(s.(approved := None), Implemented(s.approved.value, s.mode));
      RunTurnKeeps(Log(s.(approved := None), Implemented(s.approved.value, s.mode)));
    }
  }

  lemma {:induction false} OpenPromptKeeps(s: State)
    requires Core(s) && s.registered
    ensures Invariant(OpenPrompt(s))
  {
    if Barred(s) || s.paused || s.approved.Some? {
      ReturnKeeps(s);
    } else {
      FenceMeans(s);
      CoreLog(s, Opened);
      NotYetImplemented(s.log);
    }
  }

  /** A plan is implemented only after its prompt was opened. */
  lemma {:induction false} NotYetImplemented(log: seq<Event>)
    requires LogSafe(log)
    ensures NeverImplemented(log, |log|)
  {
    forall e | e in log && e.Implemented? ensures e.at != |log| {
      var i :| 0 <= i < |log| && log[i] == e;
      assert Allowed(log[..i], log[i]);
    }
  }

  lemma {:induction false} AnnounceKeeps(s: State, p: Prompt)
    requires Core(s) && s.registered
    ensures Invariant(CheckedAnnounce(s, p))
  {
    ReturnKeeps(s);
  }

  lemma {:induction false} StartRebuildingKeeps(s: State, mode: Mode)
    requires Core(s) && s.registered && !Barred(s)
    ensures Invariant(Log(s, RebuildStarted(s.agent)).(mode := mode, point := Rebuilding(s.agent, s.mode)))
  {
    FenceMeans(s);
    CoreLog(s, RebuildStarted(s.agent));
  }

  lemma {:induction false} SwitchKeeps(s: State, p: Prompt)
    requires Core(s) && s.registered
    ensures Invariant(SwitchMode(s, p)) && Invariant(CheckedSwitch(s, p))
  {
    ReturnKeeps(s);
    if s.mode == Build {
      AnnounceKeeps(s, p);
    } else if Barred(s) {
      UnwindKeeps(s, false);
    } else {
      StartRebuildingKeeps(s, Build);
    }
  }

  lemma {:induction false} RebuiltKeeps(s: State)
    requires Core(s) && s.registered
    ensures Invariant(Rebuilt(s))
  {
    if s.frames != [] {
      AnnounceKeeps(s, s.frames[|s.frames| - 1]);
    }
  }

  lemma {:induction false} RetireKeeps(s: State, agent: nat)
    requires Core(s) && agent != s.agent && agent < s.unused && Retired(agent) !in s.log
    ensures Core(Retire(s, agent))
  {
    CoreLogPlans(s, Retired(agent));
    FenceRetired(s.log, s.fence, s.retired, s.agent, s.unused, agent);
  }

  lemma {:induction false} FenceRetired(log: seq<Event>, fence: map<nat, Cleanup>, retired: seq<nat>, agent: nat,
                                        unused: nat, gone: nat)
    requires FenceOk(log, fence, retired, agent, unused) && gone != agent && gone < unused && Retired(gone) !in log
    ensures FenceOk(log + [Retired(gone)], fence, retired + [gone], agent, unused)
  {
    assert CleanupSucceeded(gone) !in log;
  }

  lemma {:induction false} FenceStarted(log: seq<Event>, fence: map<nat, Cleanup>, retired: seq<nat>, agent: nat,
                                        unused: nat, gone: nat)
    requires FenceOk(log, fence, retired, agent, unused) && gone in retired && gone !in fence
    ensures FenceOk(log + [CleanupStarted(gone)], fence[gone := Running], retired, agent, unused)
  {
  }

  lemma {:induction false} FenceFreed(log: seq<Event>, fence: map<nat, Cleanup>, retired: seq<nat>, agent: nat,
                                      unused: nat, gone: nat)
    requires FenceOk(log, fence, retired, agent, unused) && gone in fence
    ensures FenceOk(log + [CleanupSucceeded(gone)], fence - {gone}, Without(retired, gone), agent, unused)
  {
  }

  lemma {:induction false} StartCleanupKeeps(s: State, agent: nat)
    requires Core(s) && agent != s.agent && agent < s.unused && (agent in s.retired || Retired(agent) !in s.log)
    ensures var s' := StartCleanup(s, agent); Core(s') && s'.closed == s.closed && s'.registered == s.registered
  {
    if agent !in s.fence {
      if agent !in s.retired {
        RetireKeeps(s, agent);
      }
      var s' := if agent in s.retired then s else Retire(s, agent);
      CleanupLog(s', agent);
    }
  }

  lemma {:induction false} CleanupLog(s: State, agent: nat)
    requires Core(s) && agent in s.retired && agent !in s.fence
    ensures Core(Log(s.(fence := s.fence[agent := Running]), CleanupStarted(agent)))
  {
    CoreLogPlans(s, CleanupStarted(agent));
    FenceStarted(s.log, s.fence, s.retired, s.agent, s.unused, agent);
  }

  lemma {:induction false} InterruptKeeps(s: State, close: bool)
    requires Invariant(s)
    ensures Invariant(Interrupt(s, close))
  {
    var e := Interrupted(close);
    LogSafeAppend(s.log, e);
    FenceLog(s.log, e, s.fence, s.retired, s.agent, s.unused);
  }

  lemma {:induction false} FenceFailed(log: seq<Event>, fence: map<nat, Cleanup>, retired: seq<nat>, agent: nat,
                                       unused: nat, gone: nat)
    requires FenceOk(log, fence, retired, agent, unused) && gone in fence
    ensures FenceOk(log, fence[gone := Failed], retired, agent, unused)
  {
  }

  lemma {:induction false} CleanupSucceedsKeeps(s: State, agent: nat)
    requires Core(s) && agent in s.fence
    ensures Core(Log(s.(fence := s.fence - {agent}, retired := Without(s.retired, agent)), CleanupSucceeded(agent)))
  {
    CoreLogPlans(s, CleanupSucceeded(agent));
    FenceFreed(s.log, s.fence, s.retired, s.agent, s.unused, agent);
  }

  lemma {:induction false} EndCleanupKeeps(s: State, agent: nat, ok: bool)
    requires Invariant(s)
    ensures Invariant(EndCleanup(s, agent, ok))
  {
    if agent in s.fence && s.fence[agent] == Running {
      if ok {
        CleanupSucceedsKeeps(s, agent);
        StillPlaced(s, agent);
      } else {
        CleanupFailsKeeps(s, agent);
      }
    }
  }

  lemma {:induction false} CleanupFailsKeeps(s: State, agent: nat)
    requires Invariant(s) && agent in s.fence
    ensures Invariant(s.(fence := s.fence[agent := Failed]))
  {
    FenceFailed(s.log, s.fence, s.retired, s.agent, s.unused, agent);
  }

  lemma {:induction false} StillPlaced(s: State, agent: nat)
    requires Placed(s) && agent in s.fence
    ensures Placed(Log(s.(fence := s.fence - {agent}, retired := Without(s.retired, agent)), CleanupSucceeded(agent)))
  {
    if s.point.Asking? {
      PromptLog(s.log, CleanupSucceeded(agent), s.generation, s.point.prompt);
    }
  }

  lemma {:induction false} NewAgent(log: seq<Event>, fence: map<nat, Cleanup>, retired: seq<nat>, agent: nat,
                                    unused: nat)
    requires FenceOk(log, fence, retired, agent, unused)
    ensures FenceOk(log, fence, retired, unused, unused + 1)
  {
  }

  lemma {:induction false} RenewedKeeps(s: State)
    requires Core(s)
    ensures Core(Renewed(s)) && s.agent < s.unused && Retired(s.agent) !in s.log
  {
    NewAgent(s.log, s.fence, s.retired, s.agent, s.unused);
  }

  lemma {:induction false} LayOffKeeps(s: State, replaced: nat, jobs: bool)
    requires Core(s) && s.registered && replaced != s.agent && replaced < s.unused && Retired(replaced) !in s.log
    ensures Invariant(LayOff(s, replaced, jobs))
  {
    if jobs {
      RetireKeeps(s, replaced);
      RebuiltKeeps(Retire(s, replaced));
    } else {
      StartCleanupKeeps(s, replaced);
    }
  }

  lemma {:induction false} AnswerKeeps(s: State, answer: Answer)
    requires Invariant(s) && s.point.Asking?
    ensures Invariant(TakeAnswer(s, s.point.prompt, answer))
  {
    var p := s.point.prompt;
    ReturnKeeps(s);
    UnwindKeeps(s, true);
    if answer.Implement? && !Barred(s) && p.generation == s.generation {
      var s' := s.(approved := Some(p.at), frames := s.frames + [p.(agent := s.agent)]);
      assert PromptsOk(s.log, s.generation, s'.frames);
      SwitchKeeps(s', p);
    }
  }

  lemma {:induction false} RetiredIsOld(s: State)
    requires Core(s) && s.retired != []
    ensures s.retired[0] != s.agent && s.retired[0] < s.unused && s.retired[0] in s.retired
  {
    assert s.retired[0] in s.retired;
  }

  lemma {:induction false} RetireForCloseKeeps(s: State)
    requires Core(s) && s.registered && s.closed
    ensures Invariant(RetireForClose(s))
  {
    if s.retired != [] {
      RetiredIsOld(s);
      StartCleanupKeeps(s, s.retired[0]);
    }
  }

  lemma {:induction false} UnregisterKeeps(s: State)
    requires Core(s) && s.closed && s.retired == [] && s.fence == map[]
    ensures Invariant(Log(s, Unregistered).(registered := false, point := Free))
  {
    FenceMeans(s);
    CoreLog(s, Unregistered);
  }

  /** Suspending somewhere that asks for nothing. */
  lemma {:induction false} MoveKeeps(s: State, point: Point)
    requires Core(s) && s.registered && (IsClosing(point) ==> s.closed)
    requires !point.InTurn? && !point.Asking? && !point.Rebuilding? && !point.CloseCleaning?
    ensures Invariant(s.(point := point))
  {
  }

  lemma {:induction false} CloseKeeps(s: State)
    requires Invariant(s)
    ensures Invariant(ProceedClose(s))
  {
    match s.point
    case CloseGathering => MoveKeeps(s, if s.fence == map[] then CloseShutdown else Free);
    case CloseShutdown => MoveKeeps(s, if s.fence == map[] then CloseFlushing else Free);
    case CloseFlushing => RetireForCloseKeeps(s);
    case CloseRetiring => RetireForCloseKeeps(s);
    case CloseCleaning => UnregisterKeeps(s);
    case _ =>
  }

  lemma {:induction false} RaiseKeeps(s: State, cancelled: bool)
    requires Invariant(s)
    ensures Invariant(Raise(s, cancelled))
  {
    if !s.point.Free? {
      UnwindKeeps(s, cancelled);
      if s.point.Rebuilding? {
        UnwindKeeps(s.(mode := s.point.previous), cancelled);
      }
      RebuiltKeeps(s);
    }
  }

  lemma {:induction false} TidyKeeps(s: State, jobs: bool)
    requires Invariant(s) && s.point.Tidying?
    ensures Invariant(TidyUp(s, jobs))
  {
    if !jobs && s.retired != [] && s.fence == map[] {
      RetiredIsOld(s);
      StartCleanupKeeps(s, s.retired[0]);
    }
  }

  lemma {:induction false} BeginKeeps(s: State, mode: Mode)
    requires Invariant(s) && s.point.Free?
    ensures Invariant(BeginPrompt(s)) && Invariant(BeginRebuild(s, mode)) && Invariant(WakeWorker(s))
  {
    if !Barred(s) {
      RunTurnKeeps(Acquire(s, Client).(paused := false));
      StartRebuildingKeeps(Acquire(s, Client), mode);
      ResumeKeeps(Acquire(s, Resumer));
    }
  }

  lemma {:induction false} ReportKeeps(s: State, outcome: Outcome, plan: bool)
    requires Core(s) && s.registered
    ensures Invariant(ReportUsage(s, outcome, plan))
  {
    match outcome
    case Broken(cancelled) => UnwindKeeps(s, cancelled);
    case Stopped => ReturnKeeps(s);
    case Ended =>
      ReturnKeeps(s);
      OpenPromptKeeps(s);
  }

  lemma {:induction false} SettledKeeps(s: State)
    requires Invariant(s) && s.registered
    ensures Invariant(Next(s, Settled))
  {
    SettledMeans(s);
    if s.point.Settling? && s.frames != [] {
      SwitchKeeps(s, s.frames[|s.frames| - 1]);
    }
  }

  lemma {:induction false} SettledMeans(s: State)
    ensures Next(s, Settled) ==
      if s.point.Settling? && s.frames != [] then CheckedSwitch(s, s.frames[|s.frames| - 1]) else s
  {
  }

  lemma {:induction false} SweptKeeps(s: State)
    requires Invariant(s) && s.registered
    ensures Invariant(Next(s, Swept))
  {
    SweptMeans(s);
    if s.point.Sweeping? {
      RebuiltKeeps(s);
    } else if s.point.Retiring? {
      MoveKeeps(s, Tidying);
    }
  }

  lemma {:induction false} SweptMeans(s: State)
    ensures Next(s, Swept) ==
      if s.point.Sweeping? then Rebuilt(s) else if s.point.Retiring? then s.(point := Tidying) else s
  {
  }

  lemma {:induction false} DeliveredKeeps(s: State, turn: bool)
    requires Invariant(s) && s.registered
    ensures Invariant(Next(s, Delivered(turn)))
  {
    DeliveredMeans(s, turn);
    if s.point.Delivering? {
      if turn && !s.paused {
        RunTurnKeeps(s.(holder := Presenter));
      } else {
        MoveKeeps(s, Tidying);
      }
    }
  }

  lemma {:induction false} DeliveredMeans(s: State, turn: bool)
    ensures Next(s, Delivered(turn)) ==
      if !s.point.Delivering? then s
      else if turn && !s.paused then RunTurn(s.(holder := Presenter)) else s.(point := Tidying)
  {
  }

  lemma {:induction false} CloseLocksKeeps(s: State)
    requires Invariant(s) && s.registered
    ensures Invariant(Next(s, CloseLocks))
  {
    if s.point.Free? && s.closed {
      assert PromptsOk(s.log, s.generation, []);
      MoveKeeps(s.(frames := []), CloseGathering);
    }
  }

  /** Where these steps suspend the lock holder next, if they apply. */
  lemma {:induction false} MovesMean(s: State, step: Step)
    requires step.TurnEnds? || step.DeliveryFails? || step.CloseFails?
    ensures Next(s, step) == s || Next(s, step) == s.(point := if step.TurnEnds? then Reporting(step.outcome) else Free)
  {
  }

  lemma {:induction false} MovesKeep(s: State, step: Step)
    requires Invariant(s) && s.registered
    requires step.TurnEnds? || step.DeliveryFails? || step.CloseLocks? || step.CloseFails?
    ensures Invariant(Next(s, step))
  {
    if step.CloseLocks? {
      CloseLocksKeeps(s);
    } else {
      MovesMean(s, step);
      MoveKeeps(s, if step.TurnEnds? then Reporting(step.outcome) else Free);
    }
  }

  lemma {:induction false} RebuildStepKeeps(s: State, jobs: bool)
    requires Invariant(s) && s.point.Rebuilding?
    ensures Invariant(LayOff(Renewed(s), s.point.replaced, jobs))
  {
    RenewedKeeps(s);
    LayOffKeeps(Renewed(s), s.point.replaced, jobs);
  }

  lemma {:induction false} OwnerStepKeeps(s: State, step: Step)
    requires Invariant(s) && s.registered
    requires step.UsageSent? || step.Settled? || step.Swept? || step.Announced? || step.Delivered?
    ensures Invariant(Next(s, step))
  {
    match step
    case UsageSent(plan) => if s.point.Reporting? { ReportKeeps(s, s.point.outcome, plan); }
    case Settled => SettledKeeps(s);
    case Swept => SweptKeeps(s);
    case Announced => if s.point.Announcing? { ResumeKeeps(s); }
    case Delivered(turn) => DeliveredKeeps(s, turn);
  }

  /** Once unregistered, a session is free and the steps of a lock holder do nothing. */
  lemma {:induction false} Unmoved(s: State, step: Step)
    requires Invariant(s) && !s.registered
    requires step.UsageSent? || step.Settled? || step.Swept? || step.Announced? || step.Delivered? ||
             step.TurnEnds? || step.DeliveryFails? || step.CloseLocks? || step.CloseFails?
    ensures Next(s, step) == s
  {
  }

  lemma {:induction false} HeldStepKeeps(s: State, step: Step)
    requires Invariant(s)
    requires step.UsageSent? || step.Settled? || step.Swept? || step.Announced? || step.Delivered? ||
             step.TurnEnds? || step.DeliveryFails? || step.CloseLocks? || step.CloseFails?
    ensures Invariant(Next(s, step))
  {
    if !s.registered {
      Unmoved(s, step);
    } else if step.TurnEnds? || step.DeliveryFails? || step.CloseLocks? || step.CloseFails? {
      MovesKeep(s, step);
    } else {
      OwnerStepKeeps(s, step);
    }
  }

  lemma {:induction false} AnsweredKeeps(s: State, answer: Answer)
    requires Invariant(s)
    ensures Invariant(Next(s, Answered(answer)))
  {
    if s.point.Asking? {
      AnswerKeeps(s, answer);
    }
  }

  /** What constructing an agent and tidying up come to. */
  lemma {:induction false} RebuildingMeans(s: State, jobs: bool)
    ensures s.point.Rebuilding? ==> Next(s, Constructed(jobs)) == LayOff(Renewed(s), s.point.replaced, jobs)
    ensures !s.point.Rebuilding? ==> Next(s, Constructed(jobs)) == s
    ensures Next(s, Tidy(jobs)) == if s.point.Tidying? then TidyUp(s, jobs) else s
  {
  }

  lemma {:induction false} ConstructedKeeps(s: State, jobs: bool)
    requires Invariant(s)
    ensures Invariant(Next(s, Constructed(jobs)))
  {
    RebuildingMeans(s, jobs);
    if s.point.Rebuilding? {
      RebuildStepKeeps(s, jobs);
    }
  }

  lemma {:induction false} TidiedKeeps(s: State, jobs: bool)
    requires Invariant(s)
    ensures Invariant(Next(s, Tidy(jobs)))
  {
    RebuildingMeans(s, jobs);
    if s.point.Tidying? {
      TidyKeeps(s, jobs);
    }
  }

  lemma {:induction false} NextKeepsInvariant(s: State, step: Step)
    requires Invariant(s)
    ensures Invariant(Next(s, step))
  {
    match step
    case Cancel => InterruptKeeps(s, false);
    case StartClose => InterruptKeeps(s, true);
    case CleanupEnds(agent, ok) => EndCleanupKeeps(s, agent, ok);
    case StartPrompt => if s.point.Free? { BeginKeeps(s, Build); }
    case StartRebuild(mode) => if s.point.Free? { BeginKeeps(s, mode); }
    case WorkerWakes => if s.point.Free? { BeginKeeps(s, Build); }
    case Answered(answer) => AnsweredKeeps(s, answer);
    case Constructed(jobs) => ConstructedKeeps(s, jobs);
    case Tidy(jobs) => TidiedKeeps(s, jobs);
    case Raises(cancelled) => RaiseKeeps(s, cancelled);
    case CloseProceeds => CloseKeeps(s);
    case _ => HeldStepKeeps(s, step);
  }

  lemma {:induction false} RunKeepsInvariant(s: State, steps: seq<Step>)
    requires Invariant(s)
    ensures Invariant(Run(s, steps))
    decreases |steps|
  {
    if steps != [] {
      NextKeepsInvariant(s, steps[0]);
      RunKeepsInvariant(Next(s, steps[0]), steps[1..]);
    }
  }

  // ---- what holds in every run ----------------------------------------------------------------------------

  lemma {:induction false} StartIsSound(mode: Mode)
    ensures Invariant(Start(mode))
  {
  }

  /** In every interleaving: an approved plan is there only while neither a cancel nor a
      close has come since its prompt was opened; a turn runs only while nothing is being
      cleaned up, on an agent that is not retired; running and failed cleanups belong to
      retired agents; an unregistered session has nothing left to clean up. */
  lemma {:induction false} EveryRunIsSafe(mode: Mode, steps: seq<Step>)
    ensures var s := Run(Start(mode), steps);
      && LogSafe(s.log)
      && (s.approved.Some? ==>
          WasOpened(s.log, s.approved.value) && Quiet(s.log, s.approved.value) && Interrupted(true) !in s.log)
      && (s.point.InTurn? ==> s.fence == map[] && s.agent !in s.retired)
      && (forall a | a in s.fence :: a in s.retired)
      && (!s.registered ==> s.closed && s.retired == [] && s.fence == map[] && !s.point.InTurn?)
  {
    StartIsSound(mode);
    RunKeepsInvariant(Start(mode), steps);
  }

  /** A turn starts in the open, and never without its event. */
  lemma {:induction false} TurnsAreLogged(s: State, step: Step)
    requires !s.point.InTurn? && Next(s, step).point.InTurn?
    ensures var log := Next(s, step).log;
      log == s.log + [TurnStarted(s.agent)] ||
      (s.approved.Some? && log == s.log + [Implemented(s.approved.value, s.mode), TurnStarted(s.agent)])
  {
    match step
    case StartPrompt =>
    case WorkerWakes =>
    case Announced =>
    case Delivered(_) =>
    case _ => OnlyTheseStartTurns(s, step);
  }

  lemma {:induction false} OnlyTheseStartTurns(s: State, step: Step)
    requires !s.point.InTurn? && !step.StartPrompt? && !step.WorkerWakes? && !step.Announced? && !step.Delivered?
    ensures !Next(s, step).point.InTurn?
  {
  }

  /** A plan is implemented in build mode, in an open session that nothing interrupted
      since its prompt was opened. */
  lemma {:induction false} ImplementedUninterrupted(mode: Mode, steps: seq<Step>, log: seq<Event>, j: nat)
    requires log == Run(Start(mode), steps).log && j < |log| && log[j].Implemented?
    ensures log[j].mode == Build && log[j].at < j && log[log[j].at].Opened?
    ensures forall k | log[j].at <= k < j :: !log[k].Interrupted?
    ensures forall k | 0 <= k < j :: log[k] != Interrupted(true)
  {
    EveryRunIsSafe(mode, steps);
    var before := log[..j];
    assert Allowed(before, log[j]);
    forall k | log[j].at <= k < j ensures !log[k].Interrupted? {
      assert before[k] == log[k];
    }
    forall k | 0 <= k < j ensures log[k] != Interrupted(true) {
      assert before[k] == log[k] && before[k] in before;
    }
  }

  /** Each approval is implemented at most once. */
  lemma {:induction false} ImplementedOnce(mode: Mode, steps: seq<Step>, log: seq<Event>, i: nat, j: nat)
    requires log == Run(Start(mode), steps).log
    requires i < j < |log| && log[i].Implemented? && log[j].Implemented?
    ensures log[i].at != log[j].at
  {
    EveryRunIsSafe(mode, steps);
    assert Allowed(log[..j], log[j]) && log[..j][i] == log[i] && log[i] in log[..j];
  }

  /** No agent is cleaned up twice. */
  lemma {:induction false} CleanedUpOnce(mode: Mode, steps: seq<Step>, log: seq<Event>, i: nat, j: nat)
    requires log == Run(Start(mode), steps).log
    requires i < j < |log| && log[i].CleanupStarted? && log[j].CleanupStarted?
    ensures log[i].agent != log[j].agent
  {
    EveryRunIsSafe(mode, steps);
    assert Allowed(log[..j], log[j]) && log[..j][i] == log[i] && log[i] in log[..j];
  }

  /** Between the start of a cleanup and the start of a turn or a rebuild, or the end of
      the session, that cleanup has succeeded. */
  lemma {:induction false} FenceHolds(mode: Mode, steps: seq<Step>, log: seq<Event>, i: nat, j: nat)
    returns (k: nat)
    requires log == Run(Start(mode), steps).log && i < j < |log| && log[i].CleanupStarted?
    requires log[j].TurnStarted? || log[j].RebuildStarted? || log[j].Implemented? || log[j].Unregistered?
    ensures i < k < j && log[k] == CleanupSucceeded(log[i].agent)
  {
    EveryRunIsSafe(mode, steps);
    var a, before := log[i].agent, log[..j];
    assert Allowed(before, log[j]) && before[i] == CleanupStarted(a) && CleanupStarted(a) in before;
    assert CleanupSucceeded(a) in before;
    k :| 0 <= k < j && before[k] == CleanupSucceeded(a);
    assert log[k] == CleanupSucceeded(a) && Allowed(log[..k], log[k]);
    var m :| 0 <= m < k && log[..k][m] == CleanupStarted(a);
    assert log[m] == CleanupStarted(a);
    if m < i {
      CleanedUpOnce(mode, steps, log, m, i);
    } else if i < m {
      CleanedUpOnce(mode, steps, log, i, m);
    }
  }

  ghost predicate Reachable(s: State)
  {
    exists mode, steps :: s == Run(Start(mode), steps)
  }

  lemma {:induction false} StepReaches(s: State, step: Step)
    requires Reachable(s)
    ensures Reachable(Next(s, step))
  {
    var mode, steps :| s == Run(Start(mode), steps);
    RunAppend(Start(mode), steps, [step]);
    assert Run(s, [step]) == Next(s, step);
  }

  lemma {:induction false} PlansGetAsked() returns (s: State)
    ensures Reachable(s) && s.point.Asking? && s.point.prompt.generation == s.generation && !Barred(s) && !s.paused
    ensures s.holder.Client? && s.mode == Plan && s.frames == [] && s.retired == []
  {
    s := Start(Plan);
    assert s == Run(s, []);
    StepReaches(s, StartPrompt);
    s := Next(s, StartPrompt);
    StepReaches(s, TurnEnds(Ended));
    s := Next(s, TurnEnds(Ended));
    StepReaches(s, UsageSent(true));
    s := Next(s, UsageSent(true));
  }

  lemma {:induction false} PlansGetSwitched() returns (s: State)
    ensures Reachable(s) && s.point.Announcing? && s.approved.Some? && s.mode == Build && !Barred(s) && !s.paused
  {
    s := PlansGetAsked();
    StepReaches(s, Answered(Implement(false, false)));
    s := Next(s, Answered(Implement(false, false)));
    assert s.point.Rebuilding? && s.approved.Some? && !Barred(s);
    StepReaches(s, Constructed(true));
    s := Next(s, Constructed(true));
  }

  /** The guards are not so strict that nothing gets through: a planning turn, an
      approval and the switch to build mode lead to an implementation turn. */
  lemma {:induction false} PlansGetImplemented() returns (s: State, at: nat)
    ensures Reachable(s) && s.point.InTurn? && Implemented(at, Build) in s.log
  {
    s := PlansGetSwitched();
    at := s.approved.value;
    StepReaches(s, Announced);
    s := Next(s, Announced);
  }

  lemma {:induction false} RunAppend(s: State, a: seq<Step>, b: seq<Step>)
    ensures Run(s, a + b) == Run(Run(s, a), b)
    decreases |a|
  {
    if a == [] {
      assert a + b == b;
    } else {
      assert (a + b)[1..] == a[1..] + b;
      RunAppend(Next(s, a[0]), a[1..], b);
    }
  }
}
