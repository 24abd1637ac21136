/** The session as one flat table: where the lock holder stands after each step.  Returns,
    exception handlers and suspended approvals, which the code nests, come to no more than
    this. */
module Transitions {
  import opened Options
  import opened Session
  import opened Approvals

  /** Where the holder of the lock goes when its request, or its part of the work, is over. */
  function Onward(s: State): Point
  {
    match s.holder
    case Client => Free
    case Resumer => if Barred(s) then Free else Delivering
    case Presenter => Tidying
  }

  /** The suspended approval that goes on next, if it is still current. */
  predicate Resumable(s: State)
  {
    s.frames != [] && !s.closed && s.frames[|s.frames| - 1].generation == s.generation
  }

  /** After a rebuild: an approval announces the mode, anything else is over. */
  function Continuing(s: State): Point
  {
    if s.frames == [] then Free else if Resumable(s) then Announcing else Onward(s)
  }

  /** In build mode an approval announces it at once. */
  function Switching(s: State): Point
  {
    if s.mode == Build then Announcing else Rebuilding(s.agent, s.mode)
  }

  function AnsweredTo(s: State, answer: Answer): Point
    requires s.point.Asking?
  {
    if !answer.Implement? || !Askable(s, s.point.prompt.at) then Onward(s)
    else if SwitchesAtOnce(answer) then Switching(s)
    else Settling
  }

  function ReportedTo(s: State, plan: bool): Point
  {
    if Effects(s, UsageSent(plan)) == [Opened] then Asking(Prompt(s.generation, s.agent, |s.log|)) else Onward(s)
  }

  function ClosedTo(s: State): Point
  {
    match s.point
    case CloseGathering => if s.fence == map[] then CloseShutdown else Free
    case CloseShutdown => if s.fence == map[] then CloseFlushing else Free
    case CloseFlushing => if s.retired != [] then CloseRetiring else if s.fence == map[] then CloseCleaning else Free
    case CloseRetiring => if s.retired != [] then CloseRetiring else if s.fence == map[] then CloseCleaning else Free
    case CloseCleaning => Free
    case _ => s.point
  }

  /** Where the lock holder stands after a step. */
  function PointAfter(s: State, step: Step): Point
  {
    if Throws(s, step).Some? then Free
    else
      match (s.point, step)
      case (Free, StartPrompt) => if Barred(s) then Free else InTurn
      case (Free, StartRebuild(_)) => if Barred(s) then Free else Rebuilding(s.agent, s.mode)
      case (Free, WorkerWakes) => if Barred(s) then Free else if MayResume(s) then InTurn else Delivering
      case (Free, CloseLocks) => if s.closed && s.registered then CloseGathering else Free
      case (InTurn, TurnEnds(outcome)) => Reporting(outcome)
      case (Reporting(_), UsageSent(plan)) => ReportedTo(s, plan)
      case (Asking(_), Answered(answer)) => AnsweredTo(s, answer)
      case (Settling, Settled) => if s.frames == [] then Settling else if Resumable(s) then Switching(s) else Onward(s)
      case (Rebuilding(_, _), Constructed(jobs)) => if jobs then Continuing(s) else Sweeping
      case (Sweeping, Swept) => Continuing(s)
      case (Sweeping, Raises(_)) => Continuing(s)
      case (Announcing, Announced) => if MayResume(s) then InTurn else Onward(s)
      case (Delivering, Delivered(turn)) => if turn && !s.paused && !Barred(s) then InTurn else Tidying
      case (Delivering, DeliveryFails) => Free
      case (Tidying, Tidy(jobs)) => if jobs || s.retired == [] || s.fence != map[] then Free else Retiring
      case (Retiring, Swept) => Tidying
      case (_, CloseProceeds) => ClosedTo(s)
      case (_, CloseFails) => if IsClosing(s.point) then Free else s.point
      case _ => s.point
  }

  function HolderAfter(s: State, step: Step): Holder
  {
    if s.point.Free? && (step.StartPrompt? || step.StartRebuild?) && !Barred(s) then Client
    else if s.point.Free? && step.WorkerWakes? && !Barred(s) then Resumer
    else if s.point.Delivering? && step.Delivered? && step.turn && !s.paused then Presenter
    else s.holder
  }

  /** At these points no approval is suspended. */
  predicate AtRest(p: Point)
  {
    p.Free? || p.Delivering? || p.Tidying? || p.Retiring? || IsClosing(p)
  }

  function FramesAfter(s: State, step: Step): seq<Prompt>
  {
    if AtRest(PointAfter(s, step)) then []
    else if s.point.Asking? && Approves(step) && Askable(s, s.point.prompt.at)
    then s.frames + [s.point.prompt.(agent := s.agent)]
    else s.frames
  }

  predicate Rested(s: State)
  {
    AtRest(s.point) ==> s.frames == []
  }

  /** The point, the holder and the suspended approvals after a step. */
  predicate Moves(s: State, step: Step, s': State)
  {
    && s'.point == PointAfter(s, step)
    && s'.holder == HolderAfter(s, step)
    && s'.frames == FramesAfter(s, step)
  }

  // ---- piece by piece -----------------------------------------------------------------------------

  lemma {:induction false} ReturnMoves(s: State)
    ensures Return(s) == s.(point := Onward(s), frames := []) && AtRest(Onward(s))
  {
  }

  lemma {:induction false} UnwindMoves(s: State, cancelled: bool)
    requires Invariant(s)
    ensures var s' := Unwind(s, cancelled); s'.point == Free && s'.frames == [] && s'.holder == s.holder
  {
    UnwindLeaves(s, cancelled);
  }

  lemma {:induction false} SwitchMovesTo(s: State, p: Prompt)
    requires !Barred(s)
    ensures var s' := SwitchMode(s, p);
      && s'.holder == s.holder
      && (p.generation == s.generation ==> s'.point == Switching(s) && s'.frames == s.frames)
  {
  }

  lemma {:induction false} AnswerMoves(s: State, answer: Answer)
    requires Invariant(s) && s.point.Asking?
    ensures Moves(s, Answered(answer), TakeAnswer(s, s.point.prompt, answer))
  {
    ReturnMoves(s);
    var p := s.point.prompt;
    if answer.Dropped? {
      UnwindMoves(s, true);
    } else if answer.Implement? && Askable(s, p.at) {
      SwitchMovesTo(s.(approved := Some(p.at), frames := s.frames + [p.(agent := s.agent)]), p);
    }
  }

  lemma {:induction false} SettledMoves(s: State)
    requires Invariant(s) && s.point.Settling? && s.frames != []
    ensures Moves(s, Settled, CheckedSwitch(s, s.frames[|s.frames| - 1]))
  {
    SettledTo(s);
    var s' := CheckedSwitch(s, s.frames[|s.frames| - 1]);
    assert HolderAfter(s, Settled) == s.holder;
    if AtRest(s'.point) {
      assert FramesAfter(s, Settled) == [];
    } else {
      assert FramesAfter(s, Settled) == s.frames;
    }
  }

  lemma {:induction false} SettledTo(s: State)
    requires Invariant(s) && s.point.Settling? && s.frames != []
    ensures var s' := CheckedSwitch(s, s.frames[|s.frames| - 1]);
      && s'.point == PointAfter(s, Settled) && s'.holder == s.holder
      && s'.frames == if AtRest(s'.point) then [] else s.frames
  {
    ReturnMoves(s);
    if Throws(s, Settled).Some? {
      UnwindMoves(s, false);
    } else if Resumable(s) && !Barred(s) {
      SwitchMovesTo(s, s.frames[|s.frames| - 1]);
    }
  }

  lemma {:induction false} RebuiltMoves(s: State)
    ensures var s' := Rebuilt(s);
      && s'.point == Continuing(s) && s'.holder == s.holder
      && s'.frames == if AtRest(Continuing(s)) then [] else s.frames
  {
    ReturnMoves(s);
  }

  lemma {:induction false} ConstructedMoves(s: State, jobs: bool)
    requires s.point.Rebuilding?
    ensures Moves(s, Constructed(jobs), LayOff(Renewed(s), s.point.replaced, jobs))
  {
    var s' := Renewed(s);
    RebuiltMoves(Retire(s', s.point.replaced));
    CleanupControls(s', s.point.replaced);
  }

  lemma {:induction false} RaiseMoves(s: State, cancelled: bool)
    requires Invariant(s) && Rested(s)
    ensures Moves(s, Raises(cancelled), Raise(s, cancelled))
  {
    RaiseThrows(s, cancelled);
    RebuiltMoves(s);
    if Throws(s, Raises(cancelled)).Some? {
      UnwindLeaves(s.(mode := ModeAfter(s, Raises(cancelled))), cancelled);
    }
  }

  lemma {:induction false} ReportMoves(s: State, plan: bool)
    requires Invariant(s) && s.point.Reporting?
    ensures Moves(s, UsageSent(plan), ReportUsage(s, s.point.outcome, plan))
  {
    ReturnMoves(s);
    if s.point.outcome.Broken? {
      UnwindMoves(s, s.point.outcome.cancelled);
    }
  }

  lemma {:induction false} ResumeMovesTo(s: State)
    ensures var s' := Resume(s);
      && s'.holder == s.holder
      && (if MayResume(s) then s'.point == InTurn && s'.frames == s.frames
          else s'.point == Onward(s) && s'.frames == [])
  {
    ReturnMoves(s);
  }

  lemma {:induction false} WorkerMoves(s: State)
    requires Rested(s)
    ensures Moves(s, WorkerWakes, Next(s, WorkerWakes))
  {
    ResumeMovesTo(Acquire(s, Resumer));
  }

  lemma {:induction false} AnnouncedMoves(s: State)
    requires Rested(s)
    ensures Moves(s, Announced, Next(s, Announced))
  {
    ResumeMovesTo(s);
  }

  lemma {:induction false} BeginMoves(s: State, step: Step)
    requires Rested(s) && (step.StartPrompt? || step.StartRebuild?)
    ensures Moves(s, step, Next(s, step))
  {
  }

  lemma {:induction false} DeliveredMoves(s: State, turn: bool)
    requires Rested(s)
    ensures Moves(s, Delivered(turn), Next(s, Delivered(turn)))
  {
    DeliveredMeans(s, turn);
    ReturnMoves(s.(holder := Presenter));
  }

  lemma {:induction false} SweptMoves(s: State)
    requires Rested(s)
    ensures Moves(s, Swept, Next(s, Swept))
  {
    SweptMeans(s);
    RebuiltMoves(s);
  }

  lemma {:induction false} TidiesTo(s: State, jobs: bool)
    ensures var s' := TidyUp(s, jobs);
      && s'.point == (if jobs || s.retired == [] || s.fence != map[] then Free else Retiring)
      && s'.frames == s.frames && s'.holder == s.holder
  {
    if s.retired != [] {
      CleanupControls(s, s.retired[0]);
    }
  }

  lemma {:induction false} TidyMoves(s: State, jobs: bool)
    requires Rested(s)
    ensures Moves(s, Tidy(jobs), Next(s, Tidy(jobs)))
  {
    RebuildingMeans(s, jobs);
    if s.point.Tidying? {
      TidiesTo(s, jobs);
    }
  }

  lemma {:induction false} RetireForCloseMovesTo(s: State)
    ensures RetireForClose(s).point ==
      if s.retired != [] then CloseRetiring else if s.fence == map[] then CloseCleaning else Free
  {
  }

  lemma {:induction false} CloseMovesTo(s: State)
    requires Rested(s)
    ensures Moves(s, CloseProceeds, ProceedClose(s))
  {
    CloseMoves(s);
    if s.point.CloseFlushing? || s.point.CloseRetiring? {
      RetireForCloseMovesTo(s);
    }
  }

  lemma {:induction false} PlainMoves(s: State, step: Step)
    requires Rested(s)
    requires step.TurnEnds? || step.DeliveryFails? || step.CloseLocks? || step.CloseFails?
    ensures Moves(s, step, Next(s, step))
  {
  }

  lemma {:induction false} OutsideMoves(s: State, step: Step)
    requires Rested(s) && (Interrupts(step) || step.CleanupEnds?)
    ensures Moves(s, step, Next(s, step))
  {
  }

  lemma {:induction false} AskedMoves(s: State, step: Step)
    requires Invariant(s) && Rested(s) && (step.Answered? || step.Settled? || step.Raises? || step.UsageSent?)
    ensures Moves(s, step, Next(s, step))
  {
    match step
    case Answered(answer) => if s.point.Asking? { AnswerMoves(s, answer); }
    case Settled =>
      SettledMeans(s);
      if s.point.Settling? && s.frames != [] { SettledMoves(s); }
    case Raises(cancelled) => RaiseMoves(s, cancelled);
    case UsageSent(plan) => if s.point.Reporting? { ReportMoves(s, plan); }
  }

  /** Every step moves the lock holder as the table says. */
  lemma {:induction false} StepMoves(s: State, step: Step)
    requires Invariant(s) && Rested(s)
    ensures Moves(s, step, Next(s, step)) && Rested(Next(s, step))
  {
    if step.Answered? || step.Settled? || step.Raises? || step.UsageSent? {
      AskedMoves(s, step);
    } else if step.Constructed? {
      RebuildingMeans(s, step.jobs);
      if s.point.Rebuilding? {
        ConstructedMoves(s, step.jobs);
      }
    } else if step.StartPrompt? || step.StartRebuild? {
      BeginMoves(s, step);
    } else if step.WorkerWakes? {
      WorkerMoves(s);
    } else if step.Announced? {
      AnnouncedMoves(s);
    } else if step.Delivered? {
      DeliveredMoves(s, step.turn);
    } else if step.Swept? {
      SweptMoves(s);
    } else if step.Tidy? {
      TidyMoves(s, step.jobs);
    } else if step.CloseProceeds? {
      CloseMovesTo(s);
    } else if Interrupts(step) || step.CleanupEnds? {
      OutsideMoves(s, step);
    } else {
      PlainMoves(s, step);
    }
  }

  // ---- the fence and the retired agents -----------------------------------------------------------------

  /** A cleanup that starts goes behind the fence, one that fails stays there, and one that
      succeeds leaves it. */
  function FenceBy(s: State, step: Step, events: seq<Event>): map<nat, Cleanup>
  {
    if step.CleanupEnds? && step.agent in s.fence && s.fence[step.agent] == Running then
      if step.ok then s.fence - {step.agent} else s.fence[step.agent := Failed]
    else if events != [] && events[|events| - 1].CleanupStarted? then s.fence[events[|events| - 1].agent := Running]
    else s.fence
  }

  function RetiredBy(s: State, events: seq<Event>): seq<nat>
  {
    if events != [] && events[0].Retired? then s.retired + [events[0].agent]
    else if events != [] && events[0].CleanupSucceeded? then Without(s.retired, events[0].agent)
    else s.retired
  }

  predicate FencesBy(s: State, step: Step, events: seq<Event>, s': State)
  {
    s'.fence == FenceBy(s, step, events) && s'.retired == RetiredBy(s, events)
  }

  predicate Fences(s: State, step: Step, s': State)
  {
    FencesBy(s, step, Effects(s, step), s')
  }

  lemma {:induction false} CleanupStartsBy(s: State)
    ensures Effects(s, CloseProceeds) == if s.point.CloseCleaning? then [Unregistered] else CloseEvents(s)
  {
  }

  function CloseEvents(s: State): seq<Event>
  {
    if (s.point.CloseFlushing? || s.point.CloseRetiring?) && s.retired != [] && s.retired[0] !in s.fence
    then [CleanupStarted(s.retired[0])] else []
  }

  lemma {:induction false} CleanupFences(s: State, agent: nat)
    ensures var s' := StartCleanup(s, agent);
      && s'.fence == (if agent in s.fence then s.fence else s.fence[agent := Running])
      && s'.retired == (if agent in s.fence || agent in s.retired then s.retired else s.retired + [agent])
  {
  }

  lemma {:induction false} ConstructedFences(s: State, jobs: bool)
    requires Invariant(s) && s.point.Rebuilding?
    ensures Fences(s, Constructed(jobs), LayOff(Renewed(s), s.point.replaced, jobs))
  {
    assert Effects(s, Constructed(jobs)) ==
           if jobs then [Retired(s.agent)] else [Retired(s.agent), CleanupStarted(s.agent)];
    LaidOff(s, jobs, if jobs then [Retired(s.agent)] else [Retired(s.agent), CleanupStarted(s.agent)]);
  }

  lemma {:induction false} LaidOff(s: State, jobs: bool, events: seq<Event>)
    requires Invariant(s) && s.point.Rebuilding?
    requires events == if jobs then [Retired(s.agent)] else [Retired(s.agent), CleanupStarted(s.agent)]
    ensures FencesBy(s, Constructed(jobs), events, LayOff(Renewed(s), s.agent, jobs))
  {
    assert s.agent !in s.retired && s.agent !in s.fence;
    CleanupFences(Renewed(s), s.agent);
    RebuiltMoves(Retire(Renewed(s), s.agent));
  }

  lemma {:induction false} TidyFences(s: State, jobs: bool)
    requires Invariant(s)
    ensures Fences(s, Tidy(jobs), Next(s, Tidy(jobs)))
  {
    RebuildingMeans(s, jobs);
    if s.retired != [] {
      assert s.retired[0] in s.retired;
      CleanupFences(s, s.retired[0]);
    }
  }

  lemma {:induction false} RetireForCloseFences(s: State)
    ensures var s' := RetireForClose(s);
      if s.retired == [] then s'.fence == s.fence && s'.retired == s.retired
      else s'.retired == s.retired &&
           s'.fence == if s.retired[0] in s.fence then s.fence else s.fence[s.retired[0] := Running]
  {
    if s.retired != [] {
      assert s.retired[0] in s.retired;
      CleanupFences(s, s.retired[0]);
    }
  }

  lemma {:induction false} CloseFences(s: State)
    ensures Fences(s, CloseProceeds, ProceedClose(s))
  {
    CleanupStartsBy(s);
    ClosesBy(s, if s.point.CloseCleaning? then [Unregistered] else CloseEvents(s));
  }

  lemma {:induction false} ClosesBy(s: State, events: seq<Event>)
    requires events == if s.point.CloseCleaning? then [Unregistered] else CloseEvents(s)
    ensures FencesBy(s, CloseProceeds, events, ProceedClose(s))
  {
    if s.point.CloseFlushing? || s.point.CloseRetiring? {
      RetireForCloseFences(s);
    }
  }

  lemma {:induction false} ThrowFences(s: State, cancelled: bool)
    requires Invariant(s)
    ensures Unwind(s, cancelled).fence == s.fence && Unwind(s, cancelled).retired == s.retired
  {
    UnwindLeaves(s, cancelled);
  }

  lemma {:induction false} SwitchFences(s: State, p: Prompt)
    requires Invariant(s)
    ensures var s' := CheckedSwitch(s, p); s'.fence == s.fence && s'.retired == s.retired
  {
    ThrowFences(s, false);
  }

  lemma {:induction false} RaiseFences(s: State, cancelled: bool)
    requires Invariant(s)
    ensures Fences(s, Raises(cancelled), Raise(s, cancelled))
  {
    RaiseThrows(s, cancelled);
    RebuiltMoves(s);
    if Throws(s, Raises(cancelled)).Some? {
      UnwindLeaves(s.(mode := ModeAfter(s, Raises(cancelled))), cancelled);
    }
  }

  lemma {:induction false} AnswerFences(s: State, answer: Answer)
    requires Invariant(s) && s.point.Asking?
    ensures Fences(s, Answered(answer), TakeAnswer(s, s.point.prompt, answer))
  {
    ThrowFences(s, true);
  }

  lemma {:induction false} ReportFences(s: State, plan: bool)
    requires Invariant(s) && s.point.Reporting?
    ensures Fences(s, UsageSent(plan), ReportUsage(s, s.point.outcome, plan))
  {
    ReportKeepsFence(s, plan);
    assert Effects(s, UsageSent(plan)) in {[], [Opened]};
  }

  lemma {:induction false} ReportKeepsFence(s: State, plan: bool)
    requires Invariant(s) && s.point.Reporting?
    ensures var s' := ReportUsage(s, s.point.outcome, plan); s'.fence == s.fence && s'.retired == s.retired
  {
    if s.point.outcome.Broken? {
      ThrowFences(s, s.point.outcome.cancelled);
    }
  }

  lemma {:induction false} AskedFences(s: State, step: Step)
    requires Invariant(s) && (step.Answered? || step.Settled? || step.Raises? || step.UsageSent?)
    ensures Fences(s, step, Next(s, step))
  {
    match step
    case Answered(answer) => if s.point.Asking? { AnswerFences(s, answer); }
    case Settled =>
      SettledMeans(s);
      if s.point.Settling? && s.frames != [] { SwitchFences(s, s.frames[|s.frames| - 1]); }
    case Raises(cancelled) => RaiseFences(s, cancelled);
    case UsageSent(plan) => if s.point.Reporting? { ReportFences(s, plan); }
  }

  lemma {:induction false} BeginFences(s: State, step: Step)
    requires step.StartPrompt? || step.StartRebuild? || step.WorkerWakes? || step.Announced?
    ensures Fences(s, step, Next(s, step))
  {
  }

  lemma {:induction false} DeliveredFences(s: State, step: Step)
    requires step.Delivered? || step.Swept?
    ensures Fences(s, step, Next(s, step))
  {
    if step.Swept? {
      SweptMeans(s);
      RebuiltMoves(s);
    } else {
      DeliveredMeans(s, step.turn);
    }
  }

  lemma {:induction false} PlainFences(s: State, step: Step)
    requires step.TurnEnds? || step.DeliveryFails? || step.CloseLocks? || step.CloseFails? || Interrupts(step)
    ensures Fences(s, step, Next(s, step))
  {
  }

  lemma {:induction false} CleanedFences(s: State, step: Step)
    requires step.CleanupEnds?
    ensures Fences(s, step, Next(s, step))
  {
  }

  lemma {:induction false} StepFences(s: State, step: Step)
    requires Invariant(s)
    ensures Fences(s, step, Next(s, step))
  {
    if step.Answered? || step.Settled? || step.Raises? || step.UsageSent? {
      AskedFences(s, step);
    } else if step.Constructed? {
      RebuildingMeans(s, step.jobs);
      if s.point.Rebuilding? {
        ConstructedFences(s, step.jobs);
      }
    } else if step.Tidy? {
      TidyFences(s, step.jobs);
    } else if step.CloseProceeds? {
      CloseFences(s);
    } else if step.CleanupEnds? {
      CleanedFences(s, step);
    } else if step.Delivered? || step.Swept? {
      DeliveredFences(s, step);
    } else if step.StartPrompt? || step.StartRebuild? || step.WorkerWakes? || step.Announced? {
      BeginFences(s, step);
    } else {
      PlainFences(s, step);
    }
  }

  /** Agents keep the order in which they were retired. */
  lemma {:induction false} WithoutKeepsOrder(older: seq<nat>, x: nat, newer: seq<nat>)
    requires x !in older && x !in newer
    ensures Without(older + [x] + newer, x) == older + newer
  {
    if older == [] {
      assert older + [x] + newer == [x] + newer && ([x] + newer)[1..] == newer;
      NothingToTakeOut(newer, x);
      assert older + newer == newer;
    } else {
      assert older[0] in older && forall y | y in older[1..] :: y in older;
      assert (older + [x] + newer)[1..] == older[1..] + [x] + newer;
      WithoutKeepsOrder(older[1..], x, newer);
      assert [older[0]] + (older[1..] + newer) == older + newer;
    }
  }

  lemma {:induction false} NothingToTakeOut(xs: seq<nat>, x: nat)
    requires x !in xs
    ensures Without(xs, x) == xs
  {
    if xs != [] {
      assert xs[0] in xs && forall y | y in xs[1..] :: y in xs;
      NothingToTakeOut(xs[1..], x);
    }
  }

  // ---- the whole table ------------------------------------------------------------------------------------

  /** The state after a step, each part read off the state before. */
  function Flat(s: State, step: Step): State
  {
    var renews := step.Constructed? && s.point.Rebuilding?;
    var unregisters := step.CloseProceeds? && s.point.CloseCleaning?;
    State(s.closed || step.StartClose?, s.registered && !unregisters, PausedAfter(s, step), ApprovedAfter(s, step),
          GenerationAfter(s, step), ModeAfter(s, step),
          if renews then s.unused else s.agent, if renews then s.unused + 1 else s.unused,
          RetiredBy(s, Effects(s, step)), FenceBy(s, step, Effects(s, step)), PointAfter(s, step), HolderAfter(s, step),
          FramesAfter(s, step), s.log + Effects(s, step))
  }

  lemma {:induction false} StepIsFlat(s: State, step: Step)
    requires Invariant(s) && Rested(s)
    ensures Next(s, step) == Flat(s, step) && Rested(Next(s, step))
  {
    StepWrites(s, step);
    StepControls(s, step);
    StepMoves(s, step);
    StepFences(s, step);
  }

  function FlatRun(s: State, steps: seq<Step>): State
    decreases |steps|
  {
    if steps == [] then s else FlatRun(Flat(s, steps[0]), steps[1..])
  }

  lemma {:induction false} RunIsFlatFrom(s: State, steps: seq<Step>)
    requires Invariant(s) && Rested(s)
    ensures Run(s, steps) == FlatRun(s, steps)
    decreases |steps|
  {
    if steps != [] {
      StepIsFlat(s, steps[0]);
      NextKeepsInvariant(s, steps[0]);
      RunIsFlatFrom(Next(s, steps[0]), steps[1..]);
    }
  }

  /** In every interleaving the nested code and the flat table do the same. */
  lemma {:induction false} RunIsFlat(mode: Mode, steps: seq<Step>)
    ensures Run(Start(mode), steps) == FlatRun(Start(mode), steps)
  {
    StartIsSound(mode);
    RunIsFlatFrom(Start(mode), steps);
  }
}
