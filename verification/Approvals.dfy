/** What it takes for a session to act: which steps write which events, whose answer a
    plan is implemented on, and what an exception leaves behind. */
module Approvals {
  import opened Options
  import opened Session

  // ---- which steps write which events -----------------------------------------------------------

  /** The prompt at `at` stands open, still of the current generation, and may be answered. */
  predicate Askable(s: State, at: nat)
  {
    s.point.Asking? && s.point.prompt.at == at && s.point.prompt.generation == s.generation && !Barred(s)
  }

  predicate Approves(step: Step)
  {
    step.Answered? && step.answer.Implement?
  }

  /** An approved plan may be taken up: in build mode and not paused. */
  predicate MayResume(s: State)
  {
    s.approved.Some? && !Barred(s) && !s.paused && s.mode == Build
  }

  function Taken(s: State): seq<Event>
  {
    if MayResume(s) then [Implemented(s.approved.value, Build), TurnStarted(s.agent)] else []
  }

  /** The approval switches to build mode at once: no background work is settled first. */
  predicate SwitchesAtOnce(answer: Answer)
  {
    answer.Implement? && !(answer.clear && answer.jobs)
  }

  /** The background work is settled and the approval goes on to switch modes. */
  predicate SettlesToSwitch(s: State)
  {
    && s.point.Settling? && s.frames != [] && s.frames[|s.frames| - 1].generation == s.generation
    && !Barred(s) && s.mode == Plan
  }

  /** What a step writes to the log. */
  function Effects(s: State, step: Step): seq<Event>
  {
    match step
    case Cancel => [Interrupted(false)]
    case StartClose => [Interrupted(true)]
    case CleanupEnds(agent, ok) =>
      if ok && agent in s.fence && s.fence[agent] == Running then [CleanupSucceeded(agent)] else []
    case StartPrompt => if s.point.Free? && !Barred(s) then [TurnStarted(s.agent)] else []
    case StartRebuild(_) => if s.point.Free? && !Barred(s) then [RebuildStarted(s.agent)] else []
    case WorkerWakes => if s.point.Free? then Taken(s) else []
    case Announced => if s.point.Announcing? then Taken(s) else []
    case Delivered(turn) =>
      if s.point.Delivering? && turn && !s.paused && !Barred(s) then [TurnStarted(s.agent)] else []
    case UsageSent(plan) =>
      if s.point == Reporting(Ended) && plan && !Barred(s) && !s.paused && s.approved.None? then [Opened] else []
    case Answered(answer) =>
      if s.point.Asking? && Askable(s, s.point.prompt.at) && SwitchesAtOnce(answer) && s.mode == Plan
      then [RebuildStarted(s.agent)] else []
    case Settled => if SettlesToSwitch(s) then [RebuildStarted(s.agent)] else []
    case Constructed(jobs) =>
      if !s.point.Rebuilding? then []
      else if jobs then [Retired(s.agent)] else [Retired(s.agent), CleanupStarted(s.agent)]
    case Tidy(jobs) =>
      if s.point.Tidying? && !jobs && s.retired != [] && s.fence == map[] then [CleanupStarted(s.retired[0])] else []
    case CloseProceeds =>
      if s.point.CloseCleaning? then [Unregistered]
      else if (s.point.CloseFlushing? || s.point.CloseRetiring?) && s.retired != [] && s.retired[0] !in s.fence
      then [CleanupStarted(s.retired[0])] else []
    case _ => []
  }

  /** `s'` is `s` with these events written. */
  predicate Writes(s: State, s': State, events: seq<Event>)
  {
    s'.log == s.log + events
  }

  lemma {:induction false} ResumeWrites(s: State)
    ensures Writes(s, Resume(s), Taken(s))
  {
    if MayResume(s) {
      assert s.log + [Implemented(s.approved.value, Build), TurnStarted(s.agent)] ==
             s.log + [Implemented(s.approved.value, Build)] + [TurnStarted(s.agent)];
    }
  }

  lemma {:induction false} SwitchWrites(s: State, p: Prompt)
    ensures Writes(s, SwitchMode(s, p), if s.mode == Plan && !Barred(s) then [RebuildStarted(s.agent)] else [])
    ensures Writes(s, CheckedSwitch(s, p),
                   if p.generation == s.generation && s.mode == Plan && !Barred(s) then [RebuildStarted(s.agent)]
                   else [])
  {
  }

  lemma {:induction false} AnswerWrites(s: State, answer: Answer)
    requires s.point.Asking?
    ensures Writes(s, TakeAnswer(s, s.point.prompt, answer), Effects(s, Answered(answer)))
  {
    var p := s.point.prompt;
    SwitchWrites(s.(approved := Some(p.at), frames := s.frames + [p.(agent := s.agent)]), p);
  }

  lemma {:induction false} CleanupWrites(s: State, agent: nat)
    ensures Writes(s, StartCleanup(s, agent),
      if agent in s.fence then [] else if agent in s.retired then [CleanupStarted(agent)]
      else [Retired(agent), CleanupStarted(agent)])
  {
    assert s.log + [Retired(agent), CleanupStarted(agent)] == s.log + [Retired(agent)] + [CleanupStarted(agent)];
  }

  lemma {:induction false} ConstructedWrites(s: State, jobs: bool)
    requires Invariant(s) && s.point.Rebuilding?
    ensures Writes(s, LayOff(Renewed(s), s.agent, jobs), Effects(s, Constructed(jobs)))
  {
    CleanupWrites(Renewed(s), s.agent);
    assert s.agent !in s.retired && s.agent !in s.fence;
  }

  lemma {:induction false} TidyWrites(s: State, jobs: bool)
    requires Invariant(s)
    ensures Writes(s, Next(s, Tidy(jobs)), Effects(s, Tidy(jobs)))
  {
    RebuildingMeans(s, jobs);
    if s.retired != [] {
      CleanupWrites(s, s.retired[0]);
      assert s.retired[0] in s.retired;
    }
  }

  lemma {:induction false} CloseWrites(s: State)
    requires Invariant(s)
    ensures Writes(s, ProceedClose(s), Effects(s, CloseProceeds))
  {
    if s.retired != [] {
      CleanupWrites(s, s.retired[0]);
      assert s.retired[0] in s.retired;
    }
  }

  lemma {:induction false} HeldWrites(s: State, step: Step)
    requires step.UsageSent? || step.Settled? || step.Swept? || step.Delivered? || step.TurnEnds? ||
             step.Raises? || step.DeliveryFails? || step.CloseLocks? || step.CloseFails?
    ensures Writes(s, Next(s, step), Effects(s, step))
  {
    if step.Settled? && s.point.Settling? && s.frames != [] {
      SwitchWrites(s, s.frames[|s.frames| - 1]);
    }
  }

  lemma {:induction false} BeginWrites(s: State, step: Step)
    requires step.StartPrompt? || step.StartRebuild? || step.WorkerWakes? || step.Announced?
    ensures Writes(s, Next(s, step), Effects(s, step))
  {
    ResumeWrites(s);
    ResumeWrites(Acquire(s, Resumer));
  }

  /** Every step of every participant writes these events and no others: turns start for a
      prompt, for an approved plan and for background results; a prompt is opened after
      a turn that ended with a plan; only an approval switches modes by itself. */
  lemma {:induction false} StepWrites(s: State, step: Step)
    requires Invariant(s)
    ensures Next(s, step).log == s.log + Effects(s, step)
  {
    match step
    case Cancel =>
    case StartClose =>
    case CleanupEnds(agent, ok) =>
    case Answered(answer) => if s.point.Asking? { AnswerWrites(s, answer); }
    case Constructed(jobs) =>
      RebuildingMeans(s, jobs);
      if s.point.Rebuilding? { ConstructedWrites(s, jobs); }
    case Tidy(jobs) => TidyWrites(s, jobs);
    case CloseProceeds => CloseWrites(s);
    case StartPrompt => BeginWrites(s, step);
    case StartRebuild(_) => BeginWrites(s, step);
    case WorkerWakes => BeginWrites(s, step);
    case Announced => BeginWrites(s, step);
    case _ => HeldWrites(s, step);
  }

  // ---- what an exception leaves behind ------------------------------------------------------------

  /** An approval of the current generation is suspended. */
  predicate Current(frames: seq<Prompt>, generation: nat)
  {
    exists p :: p in frames && p.generation == generation
  }

  /** An approval is suspended since which the agent has not been replaced. */
  predicate SameAgent(frames: seq<Prompt>, agent: nat)
  {
    exists p :: p in frames && p.agent == agent
  }

  predicate PromptsPast(frames: seq<Prompt>, generation: nat)
  {
    forall p | p in frames :: p.generation <= generation
  }

  lemma {:induction false} HandledLeaves(s: State, frames: seq<Prompt>, cancelled: bool)
    requires PromptsPast(frames, s.generation)
    ensures var drops := if cancelled then Current(frames, s.generation) else SameAgent(frames, s.agent);
      Handled(s, frames, cancelled) == s.(approved := if drops then None else s.approved,
                                          generation := if drops && cancelled then s.generation + 1 else s.generation)
    decreases |frames|
  {
    if frames != [] {
      var p, outer := frames[|frames| - 1], frames[..|frames| - 1];
      assert frames == outer + [p];
      var s' :=
        if cancelled then
          if p.generation == s.generation then s.(approved := None, generation := s.generation + 1) else s
        else if s.agent == p.agent then s.(approved := None)
        else s;
      HandledLeaves(s', outer, cancelled);
    }
  }

  /** Whether the suspended approvals lose the plan to an exception: to a cancellation while
      the approval is current, to any other error unless the agent was replaced. */
  predicate Loses(s: State, cancelled: bool)
  {
    if cancelled then Current(s.frames, s.generation) else SameAgent(s.frames, s.agent)
  }

  /** An exception frees the lock; in the background it also pauses, unless it is a
      cancellation. */
  function Thrown(s: State, cancelled: bool): State
  {
    s.(approved := if Loses(s, cancelled) then None else s.approved,
       generation := if cancelled && Loses(s, true) then s.generation + 1 else s.generation,
       frames := [], point := Free, paused := s.paused || (!s.holder.Client? && !cancelled))
  }

  lemma {:induction false} UnwindLeaves(s: State, cancelled: bool)
    requires PromptsPast(s.frames, s.generation)
    ensures Unwind(s, cancelled) == Thrown(s, cancelled)
  {
    HandledLeaves(s, s.frames, cancelled);
  }

  // ---- who changes what ------------------------------------------------------------------------------

  /** The step throws an exception through all frames: whether it is a cancellation. */
  function Throws(s: State, step: Step): Option<bool>
  {
    match step
    case UsageSent(_) => if s.point.Reporting? && s.point.outcome.Broken? then Some(s.point.outcome.cancelled) else None
    case Answered(answer) =>
      if s.point.Asking? && answer.Dropped? && !s.closed && s.point.prompt.generation == s.generation
      then Some(true) else None
    case Settled =>
      if s.point.Settling? && s.frames != [] && !s.closed && s.fence != map[] && s.mode == Plan &&
         s.frames[|s.frames| - 1].generation == s.generation
      then Some(false) else None
    case Raises(cancelled) =>
      if s.point.Reporting? || s.point.Settling? || s.point.Announcing? || s.point.Rebuilding? ||
         s.point.Delivering? || s.point.Retiring? || (s.point.Sweeping? && cancelled)
      then Some(cancelled) else None
    case _ => None
  }

  predicate Interrupts(step: Step)
  {
    step.Cancel? || step.StartClose?
  }

  /** The plan waiting to be implemented: taken from an approved prompt, dropped by every
      interruption and by exceptions, taken up by a resumption. */
  function ApprovedAfter(s: State, step: Step): Option<nat>
  {
    if Interrupts(step) then None
    else if Throws(s, step).Some? && Loses(s, Throws(s, step).value) then None
    else if s.point.Asking? && Approves(step) && Askable(s, s.point.prompt.at) then Some(s.point.prompt.at)
    else if ((s.point.Free? && step.WorkerWakes?) || (s.point.Announcing? && step.Announced?)) && MayResume(s) then None
    else s.approved
  }

  function GenerationAfter(s: State, step: Step): nat
  {
    if Interrupts(step) || (Throws(s, step) == Some(true) && Loses(s, true)) then s.generation + 1 else s.generation
  }

  /** Background work is paused by interruptions and by its own failures, until a prompt. */
  function PausedAfter(s: State, step: Step): bool
  {
    if step.StartPrompt? && s.point.Free? && !Barred(s) then false
    else s.paused || Interrupts(step) || (Throws(s, step) == Some(false) && !s.holder.Client?)
  }

  /** A rebuild that fails restores the mode. */
  function ModeAfter(s: State, step: Step): Mode
  {
    if step.StartRebuild? && s.point.Free? && !Barred(s) then step.mode
    else if step.Answered? && s.point.Asking? && Askable(s, s.point.prompt.at) && SwitchesAtOnce(step.answer) then Build
    else if step.Settled? && SettlesToSwitch(s) then Build
    else if step.Raises? && s.point.Rebuilding? then s.point.previous
    else s.mode
  }

  /** Everything but the place of the lock holder and what the log determines. */
  predicate Controls(s: State, step: Step, s': State)
  {
    && s'.approved == ApprovedAfter(s, step)
    && s'.generation == GenerationAfter(s, step)
    && s'.paused == PausedAfter(s, step)
    && s'.mode == ModeAfter(s, step)
    && s'.closed == (s.closed || step.StartClose?)
    && s'.registered == (s.registered && !(step.CloseProceeds? && s.point.CloseCleaning?))
    && s'.agent == (if step.Constructed? && s.point.Rebuilding? then s.unused else s.agent)
    && s'.unused == (if step.Constructed? && s.point.Rebuilding? then s.unused + 1 else s.unused)
  }

  lemma {:induction false} ThrownControls(s: State, step: Step, cancelled: bool, s': State)
    requires Invariant(s) && Throws(s, step) == Some(cancelled)
    requires s' == Unwind(s.(mode := ModeAfter(s, step)), cancelled)
    ensures Controls(s, step, s')
  {
    UnwindLeaves(s.(mode := ModeAfter(s, step)), cancelled);
  }

  lemma {:induction false} DroppedControls(s: State)
    requires Invariant(s) && s.point.Asking?
    ensures Controls(s, Answered(Dropped), TakeAnswer(s, s.point.prompt, Dropped))
  {
    if Throws(s, Answered(Dropped)).Some? {
      assert ModeAfter(s, Answered(Dropped)) == s.mode;
      ThrownControls(s, Answered(Dropped), true, Unwind(s, true));
    } else {
      GivingUpControls(s, Answered(Dropped));
    }
  }

  /** Returning changes none of this. */
  lemma {:induction false} GivingUpControls(s: State, step: Step)
    requires step == Answered(Dropped) && Throws(s, step).None?
    ensures Controls(s, step, Return(s))
  {
  }

  lemma {:induction false} AnswerControls(s: State, answer: Answer)
    requires s.point.Asking? && !answer.Dropped?
    ensures Controls(s, Answered(answer), TakeAnswer(s, s.point.prompt, answer))
  {
  }

  /** Switching without an exception moves the lock holder on, perhaps in the other mode. */
  lemma {:induction false} SwitchMoves(s: State, p: Prompt)
    requires !(s.fence != map[] && s.mode == Plan && !s.closed && p.generation == s.generation)
    ensures var s' := CheckedSwitch(s, p);
      s' == s.(point := s'.point, frames := s'.frames, log := s'.log,
               mode := if !Barred(s) && p.generation == s.generation then Build else s.mode)
  {
  }

  lemma {:induction false} SettledControls(s: State)
    requires Invariant(s) && s.point.Settling? && s.frames != []
    ensures Controls(s, Settled, CheckedSwitch(s, s.frames[|s.frames| - 1]))
  {
    if Throws(s, Settled).Some? {
      ThrownControls(s, Settled, false, Unwind(s, false));
    } else {
      SwitchMoves(s, s.frames[|s.frames| - 1]);
    }
  }

  lemma {:induction false} RaiseThrows(s: State, cancelled: bool)
    ensures if Throws(s, Raises(cancelled)).Some?
            then Raise(s, cancelled) == Unwind(s.(mode := ModeAfter(s, Raises(cancelled))), cancelled)
            else Raise(s, cancelled) == if s.point.Sweeping? then Rebuilt(s) else s
  {
  }

  lemma {:induction false} RaiseControls(s: State, cancelled: bool)
    requires Invariant(s)
    ensures Controls(s, Raises(cancelled), Raise(s, cancelled))
  {
    RaiseThrows(s, cancelled);
    if Throws(s, Raises(cancelled)).Some? {
      ThrownControls(s, Raises(cancelled), cancelled, Raise(s, cancelled));
    }
  }

  lemma {:induction false} ReportControls(s: State, plan: bool)
    requires Invariant(s) && s.point.Reporting?
    ensures Controls(s, UsageSent(plan), ReportUsage(s, s.point.outcome, plan))
  {
    if s.point.outcome.Broken? {
      ThrownControls(s, UsageSent(plan), s.point.outcome.cancelled, Unwind(s, s.point.outcome.cancelled));
    }
  }

  lemma {:induction false} CleanupControls(s: State, agent: nat)
    ensures var s' := StartCleanup(s, agent);
      s' == s.(fence := s'.fence, retired := s'.retired, log := s'.log)
  {
  }

  /** Laying off an agent touches none of this. */
  lemma {:induction false} LayOffMoves(s: State, replaced: nat, jobs: bool)
    ensures var s' := LayOff(s, replaced, jobs);
      s' == s.(point := s'.point, frames := s'.frames, fence := s'.fence, retired := s'.retired, log := s'.log)
  {
    CleanupControls(s, replaced);
  }

  lemma {:induction false} ConstructedControls(s: State, jobs: bool)
    requires s.point.Rebuilding?
    ensures Controls(s, Constructed(jobs), LayOff(Renewed(s), s.point.replaced, jobs))
  {
    LayOffMoves(Renewed(s), s.point.replaced, jobs);
  }

  lemma {:induction false} TidyControls(s: State, jobs: bool)
    requires s.point.Tidying?
    ensures Controls(s, Tidy(jobs), TidyUp(s, jobs))
  {
    if s.retired != [] {
      CleanupControls(s, s.retired[0]);
    }
  }

  lemma {:induction false} RetireForCloseMoves(s: State)
    ensures var s' := RetireForClose(s);
      s' == s.(point := s'.point, fence := s'.fence, retired := s'.retired, log := s'.log)
  {
    if s.retired != [] {
      CleanupControls(s, s.retired[0]);
    }
  }

  /** Closing moves the lock holder on and, at its end, unregisters. */
  lemma {:induction false} CloseMoves(s: State)
    ensures var s' := ProceedClose(s);
      s' == s.(point := s'.point, fence := s'.fence, retired := s'.retired, log := s'.log,
               registered := s.registered && !s.point.CloseCleaning?)
  {
    if s.point.CloseFlushing? || s.point.CloseRetiring? {
      RetireForCloseMoves(s);
    }
  }

  lemma {:induction false} CloseControls(s: State)
    ensures Controls(s, CloseProceeds, ProceedClose(s))
  {
    CloseMoves(s);
  }

  lemma {:induction false} InterruptControls(s: State, step: Step)
    requires Interrupts(step) || step.CleanupEnds?
    ensures Controls(s, step, Next(s, step))
  {
  }

  lemma {:induction false} MoveControls(s: State, step: Step)
    requires step.TurnEnds? || step.DeliveryFails? || step.CloseLocks? || step.CloseFails?
    ensures Controls(s, step, Next(s, step))
  {
  }

  lemma {:induction false} ReturnControls(s: State, step: Step)
    requires step.Swept? || step.Delivered?
    ensures Controls(s, step, Next(s, step))
  {
    if step.Swept? {
      SweptMeans(s);
    } else {
      DeliveredMeans(s, step.turn);
    }
  }

  lemma {:induction false} BeginControls(s: State, step: Step)
    requires step.StartPrompt? || step.StartRebuild?
    ensures Controls(s, step, Next(s, step))
  {
  }

  lemma {:induction false} ResumeMoves(s: State)
    ensures var s' := Resume(s);
      s' == s.(point := s'.point, frames := s'.frames, log := s'.log,
               approved := if MayResume(s) then None else s.approved)
  {
  }

  lemma {:induction false} TakenControls(s: State, step: Step)
    requires step.WorkerWakes? || step.Announced?
    ensures Controls(s, step, Next(s, step))
  {
    if step.WorkerWakes? {
      ResumeMoves(Acquire(s, Resumer));
    } else {
      ResumeMoves(s);
    }
  }

  lemma {:induction false} AskedControls(s: State, step: Step)
    requires Invariant(s) && (step.Answered? || step.Settled? || step.Raises? || step.UsageSent?)
    ensures Controls(s, step, Next(s, step))
  {
    match step
    case Answered(answer) =>
      if s.point.Asking? && answer.Dropped? { DroppedControls(s); }
      else if s.point.Asking? { AnswerControls(s, answer); }
    case Settled =>
      SettledMeans(s);
      if s.point.Settling? && s.frames != [] { SettledControls(s); }
    case Raises(cancelled) => RaiseControls(s, cancelled);
    case UsageSent(plan) => if s.point.Reporting? { ReportControls(s, plan); }
  }

  lemma {:induction false} CleaningControls(s: State, step: Step)
    requires step.Constructed? || step.Tidy? || step.CloseProceeds?
    ensures Controls(s, step, Next(s, step))
  {
    match step
    case Constructed(jobs) =>
      RebuildingMeans(s, jobs);
      if s.point.Rebuilding? { ConstructedControls(s, jobs); }
    case Tidy(jobs) =>
      RebuildingMeans(s, jobs);
      if s.point.Tidying? { TidyControls(s, jobs); }
    case CloseProceeds => CloseControls(s);
  }

  /** What each step of each participant does to the plan at hand, the generation, the
      pause, the mode, the agent and the session's life. */
  lemma {:induction false} StepControls(s: State, step: Step)
    requires Invariant(s)
    ensures Controls(s, step, Next(s, step))
  {
    if step.Answered? || step.Settled? || step.Raises? || step.UsageSent? {
      AskedControls(s, step);
    } else if step.Constructed? || step.Tidy? || step.CloseProceeds? {
      CleaningControls(s, step);
    } else if step.StartPrompt? || step.StartRebuild? {
      BeginControls(s, step);
    } else if step.WorkerWakes? || step.Announced? {
      TakenControls(s, step);
    } else if Interrupts(step) || step.CleanupEnds? {
      InterruptControls(s, step);
    } else if step.Swept? || step.Delivered? {
      ReturnControls(s, step);
    } else {
      MoveControls(s, step);
    }
  }

  // ---- over every run ----------------------------------------------------------------------------------

  /** Step `i` of the run approves the plan whose prompt, opened at `at`, stands open then. */
  ghost predicate ApprovedBy(mode: Mode, steps: seq<Step>, i: nat, at: nat)
  {
    i < |steps| && Approves(steps[i]) && Askable(Run(Start(mode), steps[..i]), at)
  }

  ghost predicate WasApproved(mode: Mode, steps: seq<Step>, at: nat)
  {
    exists i: nat :: ApprovedBy(mode, steps, i, at)
  }

  lemma {:induction false} LastStep(s: State, steps: seq<Step>)
    requires steps != []
    ensures Run(s, steps) == Next(Run(s, steps[..|steps| - 1]), steps[|steps| - 1])
  {
    var front, last := steps[..|steps| - 1], steps[|steps| - 1];
    assert steps == front + [last];
    RunAppend(s, front, [last]);
    assert Run(Run(s, front), [last]) == Next(Run(s, front), last);
  }

  lemma {:induction false} StillApproved(mode: Mode, steps: seq<Step>, n: nat, at: nat)
    requires n <= |steps| && WasApproved(mode, steps[..n], at)
    ensures WasApproved(mode, steps, at)
  {
    var i: nat :| ApprovedBy(mode, steps[..n], i, at);
    assert steps[..n][..i] == steps[..i] && ApprovedBy(mode, steps, i, at);
  }

  lemma {:induction false} ReachableIsSound(mode: Mode, steps: seq<Step>)
    ensures Invariant(Run(Start(mode), steps))
  {
    StartIsSound(mode);
    RunKeepsInvariant(Start(mode), steps);
  }

  /** In every run a plan waits for its implementation, or is implemented, only if the client
      approved it: an answer to its open prompt chose to implement it. */
  lemma {:induction false} OnlyApprovedPlans(mode: Mode, steps: seq<Step>)
    ensures var s := Run(Start(mode), steps);
      && (s.approved.Some? ==> WasApproved(mode, steps, s.approved.value))
      && forall e | e in s.log && e.Implemented? :: WasApproved(mode, steps, e.at)
    decreases |steps|
  {
    if steps != [] {
      var n := |steps| - 1;
      var s, step := Run(Start(mode), steps[..n]), steps[n];
      var s' := Next(s, step);
      LastStep(Start(mode), steps);
      ReachableIsSound(mode, steps[..n]);
      OnlyApprovedPlans(mode, steps[..n]);
      StepControls(s, step);
      StepWrites(s, step);
      if s'.approved.Some? && s'.approved != s.approved {
        assert ApprovedBy(mode, steps, n, s'.approved.value);
      } else if s'.approved.Some? {
        StillApproved(mode, steps, n, s'.approved.value);
      }
      forall e | e in s'.log && e.Implemented? ensures WasApproved(mode, steps, e.at) {
        ImplementsApproved(s, step, e);
        StillApproved(mode, steps, n, e.at);
      }
    }
  }

  lemma {:induction false} ImplementsApproved(s: State, step: Step, e: Event)
    requires Invariant(s) && e in Next(s, step).log && e.Implemented?
    ensures e in s.log || s.approved == Some(e.at)
  {
    StepWrites(s, step);
    if e in Effects(s, step) {
      EffectsImplement(s, step, e);
    }
  }

  lemma {:induction false} EffectsImplement(s: State, step: Step, e: Event)
    requires e in Effects(s, step) && (e.Implemented? || e.TurnStarted? || e.Opened?)
    ensures e.Implemented? ==> s.approved == Some(e.at)
    ensures s.paused ==> step.StartPrompt?
    ensures !Interrupts(step)
  {
  }

  predicate StartsNothing(events: seq<Event>)
  {
    forall e | e in events :: !e.TurnStarted? && !e.Implemented? && !e.Opened?
  }

  /** `log` is `before` and then events that start nothing. */
  predicate Continues(before: seq<Event>, log: seq<Event>)
  {
    before <= log && StartsNothing(log[|before|..])
  }

  lemma {:induction false} ContinuesTwice(before: seq<Event>, events: seq<Event>, log: seq<Event>)
    requires StartsNothing(events) && Continues(before + events, log)
    ensures Continues(before, log)
  {
    var n := |before + events|;
    assert log == before + events + log[n..];
    assert log[|before|..] == events + log[n..];
  }

  lemma {:induction false} PausedStep(s: State, step: Step)
    requires Invariant(s) && (s.paused || Interrupts(step)) && !step.StartPrompt?
    ensures Next(s, step).paused && StartsNothing(Effects(s, step)) && Next(s, step).log == s.log + Effects(s, step)
  {
    StepControls(s, step);
    StepWrites(s, step);
    forall e | e in Effects(s, step) ensures !e.TurnStarted? && !e.Implemented? && !e.Opened? {
      if e.TurnStarted? || e.Implemented? || e.Opened? {
        EffectsImplement(s, step, e);
      }
    }
  }

  lemma {:induction false} PausedRun(s: State, steps: seq<Step>)
    requires Invariant(s) && s.paused && forall step | step in steps :: !step.StartPrompt?
    ensures Continues(s.log, Run(s, steps).log)
    decreases |steps|
  {
    if steps != [] {
      assert steps[0] in steps && forall x | x in steps[1..] :: x in steps;
      PausedStep(s, steps[0]);
      NextKeepsInvariant(s, steps[0]);
      PausedRun(Next(s, steps[0]), steps[1..]);
      ContinuesTwice(s.log, Effects(s, steps[0]), Run(s, steps).log);
    }
  }

  lemma {:induction false} RunSplit(s: State, steps: seq<Step>, i: nat)
    requires i < |steps|
    ensures Run(s, steps) == Run(Next(Run(s, steps[..i]), steps[i]), steps[i + 1..])
  {
    assert steps == steps[..i] + steps[i..] && steps[i..][1..] == steps[i + 1..];
    RunAppend(s, steps[..i], steps[i..]);
  }

  /** After a cancel or a close nothing starts by itself: until the client's next prompt no
      turn starts, no plan is implemented and none is put up for approval. */
  lemma {:induction false} NothingStartsUnasked(mode: Mode, steps: seq<Step>, i: nat)
    requires i < |steps| && Interrupts(steps[i]) && forall j | i < j < |steps| :: !steps[j].StartPrompt?
    ensures Continues(Run(Start(mode), steps[..i]).log, Run(Start(mode), steps).log)
  {
    var s := Run(Start(mode), steps[..i]);
    ReachableIsSound(mode, steps[..i]);
    NextKeepsInvariant(s, steps[i]);
    PausedStep(s, steps[i]);
    PausedRun(Next(s, steps[i]), steps[i + 1..]);
    RunSplit(Start(mode), steps, i);
    ContinuesTwice(s.log, Effects(s, steps[i]), Run(Start(mode), steps).log);
  }

  /** Every agent but the one at hand has been retired. */
  ghost predicate NoneForgotten(s: State)
  {
    forall a: nat | a < s.unused && a != s.agent :: Retired(a) in s.log
  }

  lemma {:induction false} ForgetsNone(mode: Mode, steps: seq<Step>)
    ensures NoneForgotten(Run(Start(mode), steps))
    decreases |steps|
  {
    if steps != [] {
      var n := |steps| - 1;
      var s, step := Run(Start(mode), steps[..n]), steps[n];
      LastStep(Start(mode), steps);
      ReachableIsSound(mode, steps[..n]);
      ForgetsNone(mode, steps[..n]);
      StepControls(s, step);
      StepWrites(s, step);
    }
  }

  /** Once a session is unregistered, every agent it ever replaced has been cleaned up. */
  lemma {:induction false} ClosedCleansAll(mode: Mode, steps: seq<Step>, a: nat)
    requires var s := Run(Start(mode), steps); !s.registered && a < s.unused && a != s.agent
    ensures CleanupSucceeded(a) in Run(Start(mode), steps).log
  {
    ReachableIsSound(mode, steps);
    ForgetsNone(mode, steps);
    FenceMeans(Run(Start(mode), steps));
  }
}
