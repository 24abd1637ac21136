/** When a session can still be closed: whatever it is doing, unless a cleanup has failed. */
module Closing {
  import opened Session
  import opened Approvals
  import opened Transitions

  /** Some way of going on ends with the session unregistered. */
  ghost predicate Closable(s: State)
  {
    exists steps :: !Run(s, steps).registered
  }

  ghost predicate Failing(s: State)
  {
    exists a :: a in s.fence && s.fence[a] == Failed
  }

  lemma {:induction false} OneStepFirst(s: State, step: Step)
    requires Closable(Next(s, step))
    ensures Closable(s)
  {
    var steps :| !Run(Next(s, step), steps).registered;
    assert ([step] + steps)[1..] == steps;
    assert Run(s, [step] + steps) == Run(Next(s, step), steps);
  }

  // ---- a failed cleanup keeps the session for good -----------------------------------------------

  lemma {:induction false} StartsOnce(log: seq<Event>, events: seq<Event>)
    requires LogSafe(log + events) && events != [] && events[|events| - 1].CleanupStarted?
    ensures events[|events| - 1] !in log
  {
    var all, i := log + events, |log| + |events| - 1;
    assert all[i] == events[|events| - 1] && Allowed(all[..i], all[i]);
    assert all[..i] == log + events[..|events| - 1];
  }

  /** What starts to be cleaned up was not behind the fence. */
  lemma {:induction false} StartsOutside(s: State, step: Step, events: seq<Event>)
    requires Invariant(s) && Next(s, step).log == s.log + events
    ensures events != [] && events[|events| - 1].CleanupStarted? ==> events[|events| - 1].agent !in s.fence
  {
    NextKeepsInvariant(s, step);
    if events != [] && events[|events| - 1].CleanupStarted? {
      StartsOnce(s.log, events);
    }
  }

  lemma {:induction false} FailedStays(s: State, step: Step, a: nat)
    requires Invariant(s) && a in s.fence && s.fence[a] == Failed
    ensures a in Next(s, step).fence && Next(s, step).fence[a] == Failed
    ensures s.registered ==> Next(s, step).registered
  {
    StepFences(s, step);
    StepControls(s, step);
    StepWrites(s, step);
    StartsOutside(s, step, Effects(s, step));
  }

  lemma {:induction false} FailedForever(s: State, steps: seq<Step>)
    requires Invariant(s) && Failing(s) && s.registered
    ensures Run(s, steps).registered
    decreases |steps|
  {
    if steps != [] {
      var a :| a in s.fence && s.fence[a] == Failed;
      FailedStays(s, steps[0], a);
      NextKeepsInvariant(s, steps[0]);
      FailedForever(Next(s, steps[0]), steps[1..]);
    }
  }

  // ---- otherwise it can be closed --------------------------------------------------------------------

  /** The session is closing, nothing is being cleaned up, and the lock is free. */
  predicate Quiescent(s: State)
  {
    s.registered && s.closed && s.point.Free? && s.fence == map[]
  }

  lemma {:induction false} LastStepCloses(s: State)
    requires s.point.CloseCleaning?
    ensures Closable(s)
  {
    assert !Next(s, CloseProceeds).registered;
    assert Run(Next(s, CloseProceeds), []) == Next(s, CloseProceeds);
    OneStepFirst(s, CloseProceeds);
  }

  /** One retired agent after the other is cleaned up. */
  lemma {:induction false} RetiringCloses(s: State)
    requires (s.point.CloseRetiring? || s.point.CloseFlushing?) && s.fence == map[]
    ensures Closable(s)
    decreases |s.retired|
  {
    var s1 := Next(s, CloseProceeds);
    if s.retired == [] {
      LastStepCloses(s1);
    } else {
      var a := s.retired[0];
      var s2 := Next(s1, CleanupEnds(a, true));
      assert a in s.retired;
      assert s1.fence == map[a := Running] && s1.retired == s.retired;
      assert s2.fence == map[] by {
        assert map[a := Running] - {a} == map[];
      }
      WithoutIsShorter(s.retired, a);
      RetiringCloses(s2);
      OneStepFirst(s1, CleanupEnds(a, true));
    }
    OneStepFirst(s, CloseProceeds);
  }

  lemma {:induction false} WithoutIsShorter(xs: seq<nat>, x: nat)
    ensures |Without(xs, x)| <= |xs|
    ensures x in xs ==> |Without(xs, x)| < |xs|
  {
    if xs != [] {
      WithoutIsShorter(xs[1..], x);
      assert xs == [xs[0]] + xs[1..];
    }
  }

  lemma {:induction false} QuiescentCloses(s: State)
    requires Quiescent(s)
    ensures Closable(s)
  {
    var s1 := Next(s, CloseLocks);
    var s2 := Next(s1, CloseProceeds);
    var s3 := Next(s2, CloseProceeds);
    assert s1.point == CloseGathering && s2.point == CloseShutdown && s3.point == CloseFlushing;
    RetiringCloses(s3);
    OneStepFirst(s2, CloseProceeds);
    OneStepFirst(s1, CloseProceeds);
    OneStepFirst(s, CloseLocks);
  }

  /** The cleanups that are still running succeed one after the other. */
  lemma {:induction false} FreeCloses(s: State)
    requires s.registered && s.closed && s.point.Free? && !Failing(s)
    ensures Closable(s)
    decreases |s.fence|
  {
    if s.fence == map[] {
      QuiescentCloses(s);
    } else {
      var a :| a in s.fence;
      var s' := Next(s, CleanupEnds(a, true));
      assert s.fence[a] == Running && s'.fence == s.fence - {a};
      assert |s'.fence| < |s.fence| by {
        assert s'.fence.Keys == s.fence.Keys - {a};
      }
      FreeCloses(s');
      OneStepFirst(s, CleanupEnds(a, true));
    }
  }

  /** A closing session without failed cleanups. */
  ghost predicate Winding(s: State)
  {
    Invariant(s) && s.registered && s.closed && !Failing(s)
  }

  lemma {:induction false} UnwoundCloses(s: State, step: Step)
    requires Winding(s) && Next(s, step).point.Free?
    requires step.TurnEnds? || step.DeliveryFails? || step.CloseFails? || step == Tidy(true) || step == Raises(true)
    ensures Closable(s)
  {
    var s' := Next(s, step);
    UnwoundKeeps(s, step);
    FreeCloses(s');
    OneStepFirst(s, step);
  }

  lemma {:induction false} UnwoundKeeps(s: State, step: Step)
    requires Invariant(s) && Effects(s, step) == [] && !step.CleanupEnds? && !step.StartClose? && !step.CloseProceeds?
    ensures Next(s, step).fence == s.fence
    ensures Next(s, step).closed == s.closed && Next(s, step).registered == s.registered
  {
    StepFences(s, step);
    StepControls(s, step);
  }

  lemma {:induction false} ReturningCloses(s: State, step: Step)
    requires Winding(s)
    requires (s.point.Reporting? && step == UsageSent(false)) || (s.point.Asking? && step == Answered(Decline))
    ensures Closable(s)
  {
    var s' := Next(s, step);
    NextKeepsInvariant(s, step);
    UnwoundKeeps(s, step);
    if s.point.Reporting? {
      ReportsOn(s);
    }
    if s'.point.Tidying? {
      UnwoundCloses(s', Tidy(true));
    } else {
      FreeCloses(s');
    }
    OneStepFirst(s, step);
  }

  lemma {:induction false} ReportsOn(s: State)
    requires Invariant(s) && s.point.Reporting? && s.closed
    ensures var s' := Next(s, UsageSent(false)); s'.point.Free? || s'.point.Tidying?
  {
    if s.point.outcome.Broken? {
      UnwindLeaves(s, s.point.outcome.cancelled);
    }
  }

  lemma {:induction false} TurnCloses(s: State)
    requires Winding(s) && s.point.InTurn?
    ensures Closable(s)
  {
    var s' := Next(s, TurnEnds(Stopped));
    NextKeepsInvariant(s, TurnEnds(Stopped));
    ReturningCloses(s', UsageSent(false));
    OneStepFirst(s, TurnEnds(Stopped));
  }

  lemma {:induction false} RaisedIsFree(s: State)
    requires Invariant(s)
    requires s.point.Settling? || s.point.Rebuilding? || s.point.Sweeping? || s.point.Announcing? || s.point.Retiring?
    ensures Next(s, Raises(true)).point.Free?
  {
    UnwindLeaves(s, true);
    if s.point.Rebuilding? {
      UnwindLeaves(s.(mode := s.point.previous), true);
    }
  }

  /** Wherever the lock holder stands, it comes to an end. */
  lemma {:induction false} WindingCloses(s: State)
    requires Winding(s)
    ensures Closable(s)
  {
    match s.point
    case Free => FreeCloses(s);
    case InTurn => TurnCloses(s);
    case Reporting(_) => ReturningCloses(s, UsageSent(false));
    case Asking(_) => ReturningCloses(s, Answered(Decline));
    case Delivering => UnwoundCloses(s, DeliveryFails);
    case Tidying =>
      RebuildingMeans(s, true);
      UnwoundCloses(s, Tidy(true));
    case CloseGathering => UnwoundCloses(s, CloseFails);
    case CloseShutdown => UnwoundCloses(s, CloseFails);
    case CloseFlushing => UnwoundCloses(s, CloseFails);
    case CloseRetiring => UnwoundCloses(s, CloseFails);
    case CloseCleaning => UnwoundCloses(s, CloseFails);
    case _ =>
      RaisedIsFree(s);
      UnwoundCloses(s, Raises(true));
  }

  /** Whatever a session is doing, it can still be closed, if and only if none of its cleanups
      has failed: a failed one keeps the fence up for good. */
  lemma {:induction false} ClosableIffNoneFailed(mode: Mode, steps: seq<Step>)
    requires Run(Start(mode), steps).registered
    ensures Closable(Run(Start(mode), steps)) <==> !Failing(Run(Start(mode), steps))
  {
    var s := Run(Start(mode), steps);
    ReachableIsSound(mode, steps);
    if Failing(s) {
      forall more ensures Run(s, more).registered {
        FailedForever(s, more);
      }
    } else {
      var s' := Next(s, StartClose);
      NextKeepsInvariant(s, StartClose);
      assert s'.fence == s.fence;
      WindingCloses(s');
      OneStepFirst(s, StartClose);
    }
  }
}
