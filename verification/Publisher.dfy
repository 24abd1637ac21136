/** The usage publisher as a step system: every `await` is a point where any other
    step may come in between. */
module Publisher {
  import opened Options

  /** Where the publisher task stands: not running, awaiting the wake event, past it
      and yielding once, queueing for the publish lock, or awaiting its own send. */
  datatype Loop = Off | Waiting | Yielding | Queueing | Sending

  /** The publish lock is held exactly while a send is awaited; `mine` tells whether
      the publisher task holds it.  The update carries the revision read then. */
  datatype InFlight = InFlight(mine: bool, revision: nat)

  datatype State = State(
    revision: nat,
    dirty: bool,
    wake: bool,
    bound: bool,
    closing: bool,
    loop: Loop,
    lock: Option<InFlight>,
    delivered: seq<nat>,
    failedSinceChange: bool)

  const START := State(0, true, false, false, false, Off, None, [], false)

  /** One atomic stretch of code between awaits. */
  datatype Step =
    | Changed
    | StartPublisher
    | Wake
    | Yielded
    | PublisherPublishes
    | OtherPublishes(force: bool)
    | SendSucceeds
    | SendFails
    | OtherCancelled
    | Close

  /** `publish` from taking the lock to its first await; nothing to send is a return. */
  function Publish(s: State, mine: bool, force: bool): State
  {
    if !s.bound || (!s.dirty && !force) then (if mine then s.(loop := Waiting) else s)
    else s.(lock := Some(InFlight(mine, s.revision)), loop := if mine then Sending else s.loop)
  }

  function Release(s: State): State
    requires s.lock.Some?
  {
    s.(lock := None, loop := if s.lock.value.mine then Waiting else s.loop)
  }

  /** A step that is not possible in `s` leaves it as it is. */
  function Next(s: State, step: Step): State
  {
    match step
    case Changed =>
      s.(revision := s.revision + 1, dirty := true, wake := true, failedSinceChange := false)
    case StartPublisher =>
      s.(bound := true, wake := true, loop := if s.loop.Off? && !s.closing then Waiting else s.loop)
    case Wake => if s.loop.Waiting? && s.wake then s.(wake := false, loop := Yielding) else s
    case Yielded => if s.loop.Yielding? then s.(loop := Queueing) else s
    case PublisherPublishes => if s.loop.Queueing? && s.lock.None? then Publish(s, true, false) else s
    case OtherPublishes(force) => if s.lock.None? then Publish(s, false, force) else s
    case SendSucceeds =>
      if s.lock.None? then s
      else Release(s).(delivered := s.delivered + [s.lock.value.revision],
                       dirty := s.dirty && s.lock.value.revision != s.revision)
    case SendFails => if s.lock.None? then s else Release(s).(failedSinceChange := true)
    case OtherCancelled => if s.lock.Some? && !s.lock.value.mine then Release(s) else s
    case Close =>
      s.(closing := true, loop := Off, lock := if s.lock.Some? && s.lock.value.mine then None else s.lock)
  }

  function Run(s: State, steps: seq<Step>): State
    decreases |steps|
  {
    if steps == [] then s else Run(Next(s, steps[0]), steps[1..])
  }

  predicate Ascending(xs: seq<nat>)
  {
    forall i, j | 0 <= i < j < |xs| :: xs[i] <= xs[j]
  }

  /** The last update the client received carries the current revision. */
  predicate UpToDate(s: State)
  {
    s.delivered != [] && s.delivered[|s.delivered| - 1] == s.revision
  }

  predicate Below(xs: seq<nat>, bound: nat)
  {
    forall x | x in xs :: x <= bound
  }

  predicate Invariant(s: State)
  {
    && (!s.dirty ==> UpToDate(s))
    && (s.loop.Sending? <==> s.lock.Some? && s.lock.value.mine)
    && (s.loop.Off? || s.bound)
    && Ascending(s.delivered)
    && (s.lock.Some? ==> s.lock.value.revision <= s.revision && Below(s.delivered, s.lock.value.revision))
    && Below(s.delivered, s.revision)
    // Unpublished changes are on their way unless a send has failed since.
    && (s.dirty && !s.wake && !s.loop.Off? && !s.failedSinceChange ==>
          s.loop.Yielding? || s.loop.Queueing? || (s.loop.Sending? && s.lock.value.revision == s.revision))
  }

  lemma {:induction false} Deliver(delivered: seq<nat>, r: nat, n: nat)
    requires Ascending(delivered) && Below(delivered, r) && r <= n
    ensures Ascending(delivered + [r]) && Below(delivered + [r], n) && (delivered + [r])[|delivered|] == r
  {
    assert forall i | 0 <= i < |delivered| :: delivered[i] in delivered;
  }

  lemma {:induction false} Rises(delivered: seq<nat>, r: nat, n: nat)
    requires Below(delivered, r) && r <= n
    ensures Below(delivered, n)
  {
  }

  lemma {:induction false} PublishKeeps(s: State, mine: bool, force: bool)
    requires Invariant(s) && s.lock.None? && (mine ==> s.loop.Queueing?)
    ensures Invariant(Publish(s, mine, force))
  {
  }

  lemma {:induction false} SendKeeps(s: State)
    requires Invariant(s)
    ensures Invariant(Next(s, SendSucceeds)) && Invariant(Next(s, SendFails)) && Invariant(Next(s, OtherCancelled))
  {
    if s.lock.Some? {
      Deliver(s.delivered, s.lock.value.revision, s.revision);
      assert s.delivered != [] ==> s.delivered[|s.delivered| - 1] in s.delivered;
    }
  }

  lemma {:induction false} NextKeepsInvariant(s: State, step: Step)
    requires Invariant(s)
    ensures Invariant(Next(s, step))
  {
    match step
    case Changed => Rises(s.delivered, s.revision, s.revision + 1);
    case PublisherPublishes => if s.loop.Queueing? && s.lock.None? { PublishKeeps(s, true, false); }
    case OtherPublishes(force) => if s.lock.None? { PublishKeeps(s, false, force); }
    case SendSucceeds => SendKeeps(s);
    case SendFails => SendKeeps(s);
    case OtherCancelled => SendKeeps(s);
    case StartPublisher =>
    case Wake =>
    case Yielded =>
    case Close =>
  }

  lemma {:induction false} RunKeepsInvariant(s: State, steps: seq<Step>)
    requires Invariant(s)
    ensures Invariant(Run(s, steps))
    decreases |steps|
  {
    if steps != [] {
      NextKeepsInvariant(s, steps[0]);
      RunKeepsInvariant(Next(s, steps[0]), steps[1..]);
    }
  }

  /** In every reachable state: clean means the client has the current revision, the
      client never sees an older revision after a newer one, and a running publisher
      at rest with something left to publish has had a send fail since the last
      change. */
  lemma {:induction false} PublisherIsSafe(steps: seq<Step>)
    ensures var s := Run(START, steps);
      && (!s.dirty ==> UpToDate(s))
      && Ascending(s.delivered)
      && (s.loop.Waiting? && !s.wake && s.dirty ==> s.failedSinceChange)
  {
    RunKeepsInvariant(START, steps);
  }

  /** A publisher at rest without a failure since the last change has told the client
      everything. */
  lemma {:induction false} QuietMeansUpToDate(steps: seq<Step>)
    requires var s := Run(START, steps); s.loop.Waiting? && !s.wake && !s.failedSinceChange
    ensures UpToDate(Run(START, steps))
  {
    PublisherIsSafe(steps);
  }

  // ---- it does publish --------------------------------------------------------------------------------

  /** Steps of the publisher and of the connection; nobody else has to do anything. */
  predicate Own(step: Step)
  {
    step.Wake? || step.Yielded? || step.PublisherPublishes? || step.SendSucceeds?
  }

  predicate AllOwn(steps: seq<Step>)
  {
    forall step | step in steps :: Own(step)
  }

  /** The publisher gets there by itself. */
  ghost predicate Delivers(s: State)
  {
    exists steps :: AllOwn(steps) && UpToDate(Run(s, steps))
  }

  lemma {:induction false} OneStepFirst(s: State, step: Step)
    requires Own(step) && Delivers(Next(s, step))
    ensures Delivers(s)
  {
    var steps :| AllOwn(steps) && UpToDate(Run(Next(s, step), steps));
    assert ([step] + steps)[1..] == steps && AllOwn([step] + steps);
    assert Run(s, [step] + steps) == Run(Next(s, step), steps);
  }

  lemma {:induction false} AlreadyDelivered(s: State)
    requires UpToDate(s)
    ensures Delivers(s)
  {
    assert AllOwn([]) && Run(s, []) == s;
  }

  lemma {:induction false} QueuedDelivers(s: State)
    requires Invariant(s) && s.loop.Queueing? && s.lock.None?
    ensures Delivers(s)
  {
    var s1 := Next(s, PublisherPublishes);
    if s.dirty {
      AlreadyDelivered(Next(s1, SendSucceeds));
      OneStepFirst(s1, SendSucceeds);
      OneStepFirst(s, PublisherPublishes);
    } else {
      AlreadyDelivered(s);
    }
  }

  lemma {:induction false} AwakeDelivers(s: State)
    requires Invariant(s) && s.lock.None? && (s.loop.Queueing? || s.loop.Yielding? || (s.loop.Waiting? && s.wake))
    ensures Delivers(s)
  {
    if s.loop.Waiting? {
      var s1 := Next(s, Wake);
      QueuedDelivers(Next(s1, Yielded));
      OneStepFirst(s1, Yielded);
      OneStepFirst(s, Wake);
    } else if s.loop.Yielding? {
      QueuedDelivers(Next(s, Yielded));
      OneStepFirst(s, Yielded);
    } else {
      QueuedDelivers(s);
    }
  }

  /** Wherever a run stands, a publisher that is running, unless a send has failed since the last
      change, brings the client the current revision by itself, given that its sends
      succeed. */
  lemma {:induction false} PublisherDelivers(steps: seq<Step>)
    requires var s := Run(START, steps); !s.loop.Off? && !s.failedSinceChange
    ensures Delivers(Run(START, steps))
  {
    var s := Run(START, steps);
    RunKeepsInvariant(START, steps);
    if !s.dirty {
      AlreadyDelivered(s);
    } else if s.lock.None? {
      AwakeDelivers(s);
    } else {
      var s1 := Next(s, SendSucceeds);
      NextKeepsInvariant(s, SendSucceeds);
      if s1.dirty {
        AwakeDelivers(s1);
      } else {
        AlreadyDelivered(s1);
      }
      OneStepFirst(s, SendSucceeds);
    }
  }

  lemma {:induction false} GoesOn(s: State, step: Step)
    requires Invariant(s)
    ensures Next(s, step).loop.Off? <==>
      step.Close? || (s.loop.Off? && !(step.StartPublisher? && !s.closing))
    ensures Next(s, step).closing <==> s.closing || step.Close?
  {
  }

  /** Starting sets the publisher going unless the session is closing, and it goes on until
      the session closes, whatever becomes of its sends. */
  lemma {:induction false} RunsUntilClosed(steps: seq<Step>)
    ensures var s := Run(START, steps);
      !s.loop.Off? <==> StartPublisher in steps && Close !in steps
    ensures Run(START, steps).closing <==> Close in steps
    decreases |steps|
  {
    if steps != [] {
      var n := |steps| - 1;
      var front, last := steps[..n], steps[n];
      RunsUntilClosed(front);
      RunKeepsInvariant(START, front);
      GoesOn(Run(START, front), last);
      LastStep(START, steps);
      assert forall x :: x in steps <==> x in front || x == last by {
        assert steps == front + [last];
      }
    }
  }

  lemma {:induction false} LastStep(s: State, steps: seq<Step>)
    requires steps != []
    ensures Run(s, steps) == Next(Run(s, steps[..|steps| - 1]), steps[|steps| - 1])
    decreases |steps|
  {
    if |steps| > 1 {
      LastStep(Next(s, steps[0]), steps[1..]);
      assert steps[1..][..|steps| - 2] == steps[..|steps| - 1][1..];
    }
  }

  /** What is sent is the revision at that moment, and only to a client that is bound and has
      something new, or asked for it. */
  lemma {:induction false} SendsCurrent(steps: seq<Step>, step: Step)
    requires var s := Run(START, steps); s.lock.None? && Next(s, step).lock.Some?
    ensures var s := Run(START, steps);
      && Next(s, step).lock.value.revision == s.revision
      && s.bound && (s.dirty || step == OtherPublishes(true))
  {
  }

  // ---- what a run has done --------------------------------------------------------------------------

  /** How many of the steps are changes, and how many call the publisher. */
  function Changes(steps: seq<Step>): nat
  {
    if steps == [] then 0 else (if steps[0].Changed? then 1 else 0) + Changes(steps[1..])
  }

  function Calls(steps: seq<Step>): nat
  {
    if steps == [] then 0 else (if steps[0].Changed? || steps[0].StartPublisher? then 1 else 0) + Calls(steps[1..])
  }

  /** How often the publisher wakes. */
  function Wakes(s: State, steps: seq<Step>): nat
    decreases |steps|
  {
    if steps == [] then 0
    else (if steps[0].Wake? && s.loop.Waiting? && s.wake then 1 else 0) + Wakes(Next(s, steps[0]), steps[1..])
  }

  lemma {:induction false} StepCounts(s: State, step: Step)
    ensures Next(s, step).revision == s.revision + if step.Changed? then 1 else 0
    ensures Next(s, step).wake <==>
      step.Changed? || step.StartPublisher? || (s.wake && !(step.Wake? && s.loop.Waiting?))
  {
  }

  /** The revision counts the changes; the publisher wakes at most once for each change and each
      start, never by itself. */
  lemma {:induction false} CountedFrom(s: State, steps: seq<Step>)
    ensures Run(s, steps).revision == s.revision + Changes(steps)
    ensures Wakes(s, steps) + (if Run(s, steps).wake then 1 else 0) <= (if s.wake then 1 else 0) + Calls(steps)
    decreases |steps|
  {
    if steps != [] {
      StepCounts(s, steps[0]);
      CountedFrom(Next(s, steps[0]), steps[1..]);
    }
  }

  lemma {:induction false} RunCounts(steps: seq<Step>)
    ensures Run(START, steps).revision == Changes(steps)
    ensures Wakes(START, steps) <= Calls(steps)
  {
    CountedFrom(START, steps);
  }

  /** A send has failed and nothing has changed since. */
  ghost predicate FailedUnchanged(steps: seq<Step>)
  {
    exists i: nat :: FailedAt(steps, i)
  }

  ghost predicate FailedAt(steps: seq<Step>, i: nat)
  {
    i < |steps| && steps[i].SendFails? && Run(START, steps[..i]).lock.Some? &&
    forall j | i < j < |steps| :: !steps[j].Changed?
  }

  lemma {:induction false} FailedOn(front: seq<Step>, last: Step)
    ensures FailedUnchanged(front + [last]) <==>
      (last.SendFails? && Run(START, front).lock.Some?) || (!last.Changed? && FailedUnchanged(front))
  {
    var steps := front + [last];
    assert forall j | 0 <= j < |front| :: front[j] == steps[j];
    if i: nat :| FailedAt(steps, i) {
      if i < |front| {
        assert steps[..i] == front[..i] && !steps[|front|].Changed?;
        assert FailedAt(front, i);
      } else {
        assert steps[..i] == front;
      }
    }
    if i: nat :| FailedAt(front, i) && !last.Changed? {
      assert steps[..i] == front[..i];
      assert FailedAt(steps, i);
    }
    if last.SendFails? && Run(START, front).lock.Some? {
      assert steps[..|front|] == front && FailedAt(steps, |front|);
    }
  }

  lemma {:induction false} FailsOn(s: State, step: Step)
    ensures Next(s, step).failedSinceChange <==>
      (step.SendFails? && s.lock.Some?) || (!step.Changed? && s.failedSinceChange)
  {
  }

  lemma {:induction false} FailuresAreReal(steps: seq<Step>)
    ensures Run(START, steps).failedSinceChange <==> FailedUnchanged(steps)
    decreases |steps|
  {
    if steps != [] {
      var front, last := steps[..|steps| - 1], steps[|steps| - 1];
      FailuresAreReal(front);
      LastStep(START, steps);
      FailsOn(Run(START, front), last);
      assert steps == front + [last];
      FailedOn(front, last);
    } else {
      assert !FailedUnchanged(steps);
    }
  }

  /** When the publisher gets the lock it sends if there is something new, and otherwise goes
      back to wait; afterwards, too, it goes back to wait. */
  lemma {:induction false} PublisherGoesRound(steps: seq<Step>)
    requires !Run(START, steps).loop.Off?
    ensures var s := Run(START, steps);
      && (s.loop.Queueing? && s.lock.None? ==>
            Next(s, PublisherPublishes).loop == if s.dirty then Sending else Waiting)
      && (s.loop.Sending? ==> Next(s, SendSucceeds).loop == Next(s, SendFails).loop == Waiting)
  {
    RunKeepsInvariant(START, steps);
  }
}
