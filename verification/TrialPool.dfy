/** The resumable benchmark run: an append-only journal, a skip set read from it, and
    concurrent workers with one lock per provider. */
module TrialPool {
  datatype Status = Passed | Failed | Unsupported | ProviderError | HarnessError | NotRun | Cancelled

  datatype Record = Record(trial: string, status: Status)

  datatype Trial = Trial(id: string, provider: string)

  // ---- the journal -----------------------------------------------------------------------

  /** Reading the journal back: the last record of each trial. */
  function LastWins(journal: seq<Record>): map<string, Record>
  {
    if journal == [] then map[]
    else
      var r := journal[|journal| - 1];
      LastWins(journal[..|journal| - 1])[r.trial := r]
  }

  method LoadTrialRecords(journal: seq<Record>) returns (records: map<string, Record>)
    ensures records == LastWins(journal)
  {
    records := map[];
    for k := 0 to |journal|
      invariant records == LastWins(journal[..k])
    {
      assert journal[..k + 1][..k] == journal[..k];
      records := records[journal[k].trial := journal[k]];
    }
    assert journal[..|journal|] == journal;
  }

  predicate Terminal(status: Status)
  {
    status.Passed? || status.Failed? || status.Unsupported?
  }

  predicate Skipped(status: Status, rerunFailures: bool)
  {
    Terminal(status) || !rerunFailures
  }

  /** Some record of the trial, anywhere in the journal, is terminal. */
  ghost predicate Settled(journal: seq<Record>, id: string)
  {
    exists r :: r in journal && r.trial == id && Terminal(r.status)
  }

  /** A terminal record is the last one of its trial. */
  ghost predicate Final(journal: seq<Record>)
  {
    forall i, j | 0 <= i < j < |journal| && Terminal(journal[i].status) :: journal[j].trial != journal[i].trial
  }

  lemma {:induction false} SettledIsLast(journal: seq<Record>, id: string)
    requires Final(journal) && Settled(journal, id)
    ensures id in LastWins(journal) && Terminal(LastWins(journal)[id].status)
  {
    var n := |journal| - 1;
    var front := journal[..n];
    assert journal == front + [journal[n]];
    if Settled(front, id) {
      SettledIsLast(front, id);
      var r :| r in front && r.trial == id && Terminal(r.status);
    }
  }

  function Pending(planned: seq<Trial>, records: map<string, Record>, rerunFailures: bool): seq<Trial>
  {
    if planned == [] then []
    else
      var t, before := planned[|planned| - 1], Pending(planned[..|planned| - 1], records, rerunFailures);
      if Skips(records, t, rerunFailures) then before else before + [t]
  }

  /** The trial has a record whose status is not to be run again. */
  predicate Skips(records: map<string, Record>, t: Trial, rerunFailures: bool)
  {
    t.id in records && Skipped(records[t.id].status, rerunFailures)
  }

  method PlanPending(planned: seq<Trial>, records: map<string, Record>, rerunFailures: bool)
    returns (pending: seq<Trial>)
    ensures pending == Pending(planned, records, rerunFailures)
  {
    pending := [];
    for k := 0 to |planned|
      invariant pending == Pending(planned[..k], records, rerunFailures)
    {
      assert planned[..k + 1][..k] == planned[..k];
      if !Skips(records, planned[k], rerunFailures) {
        pending := pending + [planned[k]];
      }
    }
    assert planned[..|planned|] == planned;
  }

  predicate Distinct(trials: seq<Trial>)
  {
    forall i, j | 0 <= i < j < |trials| :: trials[i].id != trials[j].id
  }

  lemma {:induction false} PendingIsDistinct(planned: seq<Trial>, records: map<string, Record>, rerun: bool)
    requires Distinct(planned)
    ensures var p := Pending(planned, records, rerun);
      && Distinct(p)
      && forall t | t in p :: t in planned && (t.id in records ==> !Terminal(records[t.id].status))
  {
    if planned != [] {
      var n := |planned| - 1;
      PendingIsDistinct(planned[..n], records, rerun);
      var before := Pending(planned[..n], records, rerun);
      assert forall i | 0 <= i < |before| :: before[i] in before;
    }
  }

  // ---- one run -----------------------------------------------------------------------------

  /** A worker asks for work, waits for its provider's lock, runs the trial, waits to
      write its record; it ends when the queue is empty or its trial raised. */
  datatype Worker = Asking | Waiting(trial: Trial) | Running(trial: Trial) | Writing(record: Record) | Finished | Raised

  /** A trial that was started, and what the journal held at that moment. */
  datatype Start = Start(trial: Trial, journal: seq<Record>)

  datatype Pool = Pool(queue: seq<Trial>, workers: seq<Worker>, journal: seq<Record>, started: seq<Start>)

  datatype Step = Fetch(w: nat) | Lock(w: nat) | Complete(w: nat, status: Status) | Raise(w: nat) | Write(w: nat)

  function Opened(pending: seq<Trial>, concurrency: nat, journal: seq<Record>): Pool
  {
    var n := if |pending| <= 1 then 1 else |pending|;
    Pool(pending, seq(if concurrency < n then concurrency else n, _ => Asking), journal, [])
  }

  predicate ProviderFree(workers: seq<Worker>, provider: string)
  {
    forall w | w in workers && w.Running? :: w.trial.provider != provider
  }

  /** A step that is not possible leaves the pool as it is. */
  function Next(p: Pool, step: Step): Pool
  {
    if step.w >= |p.workers| then p
    else
      var w, me := step.w, p.workers[step.w];
      match step
      case Fetch(_) =>
        if !me.Asking? then p
        else if p.queue == [] then p.(workers := p.workers[w := Finished])
        else p.(workers := p.workers[w := Waiting(p.queue[0])], queue := p.queue[1..])
      case Lock(_) =>
        if me.Waiting? && ProviderFree(p.workers, me.trial.provider)
        then p.(workers := p.workers[w := Running(me.trial)], started := p.started + [Start(me.trial, p.journal)])
        else p
      case Complete(_, status) =>
        if me.Running? then p.(workers := p.workers[w := Writing(Record(me.trial.id, status))]) else p
      case Raise(_) => if me.Running? then p.(workers := p.workers[w := Raised]) else p
      case Write(_) =>
        if me.Writing? then p.(workers := p.workers[w := Asking], journal := p.journal + [me.record]) else p
  }

  function Run(p: Pool, steps: seq<Step>): Pool
    decreases |steps|
  {
    if steps == [] then p else Run(Next(p, steps[0]), steps[1..])
  }

  /** The trial a worker has in hand, and whether it has been started. */
  predicate Has(w: Worker, id: string)
  {
    match w
    case Waiting(t) => t.id == id
    case Running(t) => t.id == id
    case Writing(r) => r.trial == id
    case _ => false
  }

  /** No trial is in two hands, or both in a hand and in the queue; none of those not
      yet written is settled. */
  ghost predicate Exclusive(p: Pool)
  {
    && Distinct(p.queue)
    && (forall i, j, id | 0 <= i < j < |p.workers| && Has(p.workers[i], id) :: !Has(p.workers[j], id))
    && (forall w, t | w in p.workers && t in p.queue :: !Has(w, t.id))
    && (forall t | t in p.queue :: !Settled(p.journal, t.id))
    && (forall w, id | w in p.workers && Has(w, id) :: !Settled(p.journal, id))
    && Final(p.journal)
    && (forall s | s in p.started :: !Settled(s.journal, s.trial.id))
  }

  ghost predicate OnePerProvider(workers: seq<Worker>)
  {
    forall i, j | 0 <= i < j < |workers| && workers[i].Running? && workers[j].Running? ::
      workers[i].trial.provider != workers[j].trial.provider
  }

  lemma {:induction false} FetchKeeps(p: Pool, w: nat)
    requires Exclusive(p) && w < |p.workers| && p.workers[w].Asking? && p.queue != []
    ensures Exclusive(Next(p, Fetch(w)))
  {
    var t, rest := p.queue[0], p.queue[1..];
    var p' := Next(p, Fetch(w));
    assert t in p.queue && forall x | x in rest :: x in p.queue && x.id != t.id;
    assert forall i | 0 <= i < |p.workers| :: p.workers[i] in p.workers;
    forall v, x | v in p'.workers && x in p'.queue ensures !Has(v, x.id) {
    }
  }

  lemma {:induction false} WriteKeeps(p: Pool, w: nat)
    requires Exclusive(p) && w < |p.workers| && p.workers[w].Writing?
    ensures Exclusive(Next(p, Write(w)))
  {
    var r := p.workers[w].record;
    var p' := Next(p, Write(w));
    assert Has(p.workers[w], r.trial) && p.workers[w] in p.workers;
    assert forall i | 0 <= i < |p.workers| && i != w :: !Has(p.workers[i], r.trial);
    forall id | id != r.trial && !Settled(p.journal, id) ensures !Settled(p'.journal, id) {
    }
    forall v, id | v in p'.workers && Has(v, id) ensures !Settled(p'.journal, id) {
      var i :| 0 <= i < |p'.workers| && p'.workers[i] == v;
      assert i != w && p.workers[i] == v && v in p.workers;
    }
    forall v, t | v in p'.workers && t in p'.queue ensures !Has(v, t.id) {
      assert v == Asking || v in p.workers;
    }
    assert forall i | 0 <= i < |p.journal| :: p.journal[i] in p.journal;
  }

  lemma {:induction false} HandKeeps(p: Pool, w: nat, me: Worker)
    requires Exclusive(p) && w < |p.workers| && forall id :: Has(me, id) ==> Has(p.workers[w], id)
    ensures Exclusive(p.(workers := p.workers[w := me]))
  {
    assert forall i | 0 <= i < |p.workers| :: p.workers[i] in p.workers;
  }

  lemma {:induction false} NextKeepsExclusive(p: Pool, step: Step)
    requires Exclusive(p)
    ensures Exclusive(Next(p, step))
  {
    if step.w < |p.workers| {
      var w, me := step.w, p.workers[step.w];
      match step
      case Fetch(_) =>
        if me.Asking? && p.queue != [] {
          FetchKeeps(p, w);
        } else {
          HandKeeps(p, w, Finished);
        }
      case Lock(_) =>
        if me.Waiting? {
          HandKeeps(p, w, Running(me.trial));
          assert me in p.workers && Has(me, me.trial.id);
        }
      case Complete(_, status) =>
        if me.Running? {
          HandKeeps(p, w, Writing(Record(me.trial.id, status)));
        }
      case Raise(_) => HandKeeps(p, w, Raised);
      case Write(_) =>
        if me.Writing? {
          WriteKeeps(p, w);
        }
    }
  }

  lemma {:induction false} NextKeepsProviders(p: Pool, step: Step)
    requires OnePerProvider(p.workers)
    ensures OnePerProvider(Next(p, step).workers)
  {
    assert forall i | 0 <= i < |p.workers| :: p.workers[i] in p.workers;
  }

  // ---- conservation ------------------------------------------------------------------------

  /** How often trial `t` is queued, held by a waiting worker, or has been started. */
  ghost function Queued(queue: seq<Trial>, t: Trial): nat
  {
    if queue == [] then 0 else (if queue[0] == t then 1 else 0) + Queued(queue[1..], t)
  }

  lemma {:induction false} QueuedSnoc(queue: seq<Trial>, last: Trial, t: Trial)
    ensures Queued(queue + [last], t) == Queued(queue, t) + if last == t then 1 else 0
  {
    var all := queue + [last];
    if queue != [] {
      assert all[1..] == queue[1..] + [last];
      QueuedSnoc(queue[1..], last, t);
    } else {
      assert all[1..] == [];
    }
  }

  /** Exactly the planned trials without a skipped status are pending, each as often as
      it is planned. */
  lemma {:induction false} PendingExactly(planned: seq<Trial>, records: map<string, Record>, rerun: bool, t: Trial)
    ensures Queued(Pending(planned, records, rerun), t) == if Skips(records, t, rerun) then 0 else Queued(planned, t)
  {
    if planned != [] {
      var front, last := planned[..|planned| - 1], planned[|planned| - 1];
      assert planned == front + [last];
      PendingExactly(front, records, rerun, t);
      QueuedSnoc(front, last, t);
      QueuedSnoc(Pending(front, records, rerun), last, t);
    }
  }

  /** And in the order in which they are planned. */
  lemma {:induction false} PendingInOrder(first: seq<Trial>, then_: seq<Trial>, records: map<string, Record>,
                                          rerun: bool)
    ensures Pending(first + then_, records, rerun) == Pending(first, records, rerun) + Pending(then_, records, rerun)
    decreases |then_|
  {
    var all := first + then_;
    if then_ == [] {
      assert all == first;
    } else {
      var front := then_[..|then_| - 1];
      assert all[..|all| - 1] == first + front;
      PendingInOrder(first, front, records, rerun);
    }
  }

  ghost function HeldBy(w: Worker, t: Trial): nat
  {
    if w == Waiting(t) then 1 else 0
  }

  ghost function Held(workers: seq<Worker>, t: Trial): nat
  {
    if workers == [] then 0 else HeldBy(workers[0], t) + Held(workers[1..], t)
  }

  ghost function Started(started: seq<Start>, t: Trial): nat
  {
    if started == [] then 0
    else Started(started[..|started| - 1], t) + if started[|started| - 1].trial == t then 1 else 0
  }

  lemma {:induction false} HeldUpdate(workers: seq<Worker>, w: nat, me: Worker, t: Trial)
    requires w < |workers|
    ensures Held(workers[w := me], t) + HeldBy(workers[w], t) == Held(workers, t) + HeldBy(me, t)
  {
    if w == 0 {
      assert workers[w := me][1..] == workers[1..];
    } else {
      assert workers[w := me][1..] == workers[1..][w - 1 := me];
      HeldUpdate(workers[1..], w - 1, me, t);
    }
  }

  ghost function Accounted(p: Pool, t: Trial): nat
  {
    Queued(p.queue, t) + Held(p.workers, t) + Started(p.started, t)
  }

  lemma {:induction false} NextConserves(p: Pool, step: Step, t: Trial)
    ensures Accounted(Next(p, step), t) == Accounted(p, t)
  {
    if step.w < |p.workers| {
      var p' := Next(p, step);
      HeldUpdate(p.workers, step.w, p'.workers[step.w], t);
      assert p'.workers == p.workers[step.w := p'.workers[step.w]];
      if step.Lock? && |p'.started| > |p.started| {
        assert p'.started[..|p.started|] == p.started;
      }
    }
  }

  /** Workers only finish when the queue is empty. */
  ghost predicate FinishedMeansEmpty(p: Pool)
  {
    (exists w :: w in p.workers && w.Finished?) ==> p.queue == []
  }

  lemma {:induction false} NextKeepsFinished(p: Pool, step: Step)
    requires FinishedMeansEmpty(p)
    ensures FinishedMeansEmpty(Next(p, step))
  {
    var p' := Next(p, step);
    if w :| w in p'.workers && w.Finished? {
      var i :| 0 <= i < |p'.workers| && p'.workers[i] == w;
      if p.workers[i].Finished? {
        assert p.workers[i] in p.workers;
      }
    }
  }

  // ---- a whole run -----------------------------------------------------------------------------

  lemma {:induction false} RunKeeps(p: Pool, steps: seq<Step>)
    requires Exclusive(p) && OnePerProvider(p.workers) && FinishedMeansEmpty(p)
    ensures var q := Run(p, steps);
      Exclusive(q) && OnePerProvider(q.workers) && FinishedMeansEmpty(q) && |q.workers| == |p.workers|
    decreases |steps|
  {
    if steps != [] {
      NextKeepsExclusive(p, steps[0]);
      NextKeepsProviders(p, steps[0]);
      NextKeepsFinished(p, steps[0]);
      RunKeeps(Next(p, steps[0]), steps[1..]);
    }
  }

  lemma {:induction false} RunConserves(p: Pool, steps: seq<Step>, t: Trial)
    ensures Accounted(Run(p, steps), t) == Accounted(p, t)
    decreases |steps|
  {
    if steps != [] {
      NextConserves(p, steps[0], t);
      RunConserves(Next(p, steps[0]), steps[1..], t);
    }
  }

  lemma {:induction false} NothingHeld(workers: seq<Worker>, t: Trial)
    requires forall w | w in workers :: !w.Waiting?
    ensures Held(workers, t) == 0
  {
    if workers != [] {
      assert workers[0] in workers && forall w | w in workers[1..] :: w in workers;
      NothingHeld(workers[1..], t);
    }
  }

  lemma {:induction false} OpenedIsExclusive(pending: seq<Trial>, concurrency: nat, journal: seq<Record>)
    requires Distinct(pending) && Final(journal) && forall t | t in pending :: !Settled(journal, t.id)
    ensures var p := Opened(pending, concurrency, journal);
      Exclusive(p) && OnePerProvider(p.workers) && FinishedMeansEmpty(p)
  {
  }

  lemma {:induction false} PendingIsUnsettled(planned: seq<Trial>, journal: seq<Record>, rerun: bool)
    requires Distinct(planned) && Final(journal)
    ensures var pending := Pending(planned, LastWins(journal), rerun);
      Distinct(pending) && forall t | t in pending :: !Settled(journal, t.id)
  {
    PendingIsDistinct(planned, LastWins(journal), rerun);
    forall t | t in Pending(planned, LastWins(journal), rerun) ensures !Settled(journal, t.id) {
      if Settled(journal, t.id) {
        SettledIsLast(journal, t.id);
      }
    }
  }

  /** Within one run, whatever the schedule: at most one trial per provider is in
      flight, no started trial was settled when it started, and the journal stays
      final. */
  lemma {:induction false} EveryScheduleIsSafe(planned: seq<Trial>, concurrency: nat, journal: seq<Record>, rerun: bool,
                            steps: seq<Step>)
    requires Distinct(planned) && Final(journal)
    ensures var q := Run(Opened(Pending(planned, LastWins(journal), rerun), concurrency, journal), steps);
      && OnePerProvider(q.workers)
      && (forall s | s in q.started :: !Settled(s.journal, s.trial.id))
      && Final(q.journal)
  {
    PendingIsUnsettled(planned, journal, rerun);
    OpenedIsExclusive(Pending(planned, LastWins(journal), rerun), concurrency, journal);
    RunKeeps(Opened(Pending(planned, LastWins(journal), rerun), concurrency, journal), steps);
  }

  /** No schedule starts a trial more often than it was pending, and once all workers
      have finished each was started exactly as often, duplicates included. */
  lemma {:induction false} EachPendingTrialRunsOnce(pending: seq<Trial>, concurrency: nat, journal: seq<Record>,
                                                    steps: seq<Step>,
                                 t: Trial)
    requires concurrency > 0
    ensures var q := Run(Opened(pending, concurrency, journal), steps);
      && Started(q.started, t) <= Queued(pending, t)
      && ((forall w | w in q.workers :: w.Finished?) ==> Started(q.started, t) == Queued(pending, t))
  {
    var p := Opened(pending, concurrency, journal);
    RunConserves(p, steps, t);
    NothingHeld(p.workers, t);
    FinishedRun(p, steps);
    var q := Run(p, steps);
    if forall w | w in q.workers :: w.Finished? {
      assert q.workers[0] in q.workers;
      NothingHeld(q.workers, t);
    }
  }

  /** A run in which every worker finishes starts each planned trial without a skipped
      status exactly as often as it is planned, and no other. */
  lemma {:induction false} EachPlannedTrialRunsOnce(planned: seq<Trial>, concurrency: nat, journal: seq<Record>,
                                                    rerun: bool,
                                                    steps: seq<Step>, t: Trial)
    requires concurrency > 0
    requires var q := Run(Opened(Pending(planned, LastWins(journal), rerun), concurrency, journal), steps);
      forall w | w in q.workers :: w.Finished?
    ensures var q := Run(Opened(Pending(planned, LastWins(journal), rerun), concurrency, journal), steps);
      Started(q.started, t) == if Skips(LastWins(journal), t, rerun) then 0 else Queued(planned, t)
  {
    EachPendingTrialRunsOnce(Pending(planned, LastWins(journal), rerun), concurrency, journal, steps, t);
    PendingExactly(planned, LastWins(journal), rerun, t);
  }

  lemma {:induction false} FinishedRun(p: Pool, steps: seq<Step>)
    requires FinishedMeansEmpty(p)
    ensures FinishedMeansEmpty(Run(p, steps)) && |Run(p, steps).workers| == |p.workers|
    decreases |steps|
  {
    if steps != [] {
      NextKeepsFinished(p, steps[0]);
      FinishedRun(Next(p, steps[0]), steps[1..]);
    }
  }

  // ---- interrupted and resumed runs ------------------------------------------------------------

  /** One run of a resumed benchmark; `steps` may stop anywhere. */
  datatype Session = Session(planned: seq<Trial>, concurrency: nat, rerun: bool, steps: seq<Step>)

  function RunSession(journal: seq<Record>, s: Session): Pool
  {
    Run(Opened(Pending(s.planned, LastWins(journal), s.rerun), s.concurrency, journal), s.steps)
  }

  /** Everything started over a sequence of runs, each resuming from the journal. */
  function AllStarted(journal: seq<Record>, sessions: seq<Session>): seq<Start>
    decreases |sessions|
  {
    if sessions == [] then []
    else
      var q := RunSession(journal, sessions[0]);
      q.started + AllStarted(q.journal, sessions[1..])
  }

  /** Across any sequence of interrupted and resumed runs, a trial journaled passed,
      failed or unsupported is never started again. */
  lemma {:induction false} SettledTrialsNeverRestart(journal: seq<Record>, sessions: seq<Session>)
    requires Final(journal) && forall s | s in sessions :: Distinct(s.planned)
    ensures forall e | e in AllStarted(journal, sessions) :: !Settled(e.journal, e.trial.id)
    decreases |sessions|
  {
    if sessions != [] {
      var s := sessions[0];
      assert s in sessions && forall x | x in sessions[1..] :: x in sessions;
      EveryScheduleIsSafe(s.planned, s.concurrency, journal, s.rerun, s.steps);
      SettledTrialsNeverRestart(RunSession(journal, s).journal, sessions[1..]);
    }
  }

  // ---- distinct ids are exactly what that needs ----------------------------------------------

  ghost predicate NoRestart(p: Pool)
  {
    forall e | e in p.started :: !Settled(e.journal, e.trial.id)
  }

  lemma {:induction false} RunAppend(p: Pool, first: seq<Step>, then_: seq<Step>)
    ensures Run(p, first + then_) == Run(Run(p, first), then_)
    decreases |first|
  {
    if first == [] {
      assert first + then_ == then_;
    } else {
      assert (first + then_)[1..] == first[1..] + then_;
      RunAppend(Next(p, first[0]), first[1..], then_);
    }
  }

  const ROUND := [Fetch(0), Lock(0), Complete(0, Passed), Write(0)]

  /** One worker takes the head of the queue through to a passing record. */
  lemma {:induction false} RoundPasses(p: Pool)
    requires p.workers != [] && p.queue != [] && forall w | w in p.workers :: w.Asking?
    ensures Run(p, ROUND) == Pool(p.queue[1..], p.workers, p.journal + [Record(p.queue[0].id, Passed)],
                                  p.started + [Start(p.queue[0], p.journal)])
  {
    assert p.workers[0] in p.workers;
    var t, rest, ws := p.queue[0], p.queue[1..], p.workers;
    var after := p.started + [Start(t, p.journal)];
    var p1 := Pool(rest, ws[0 := Waiting(t)], p.journal, p.started);
    assert Next(p, Fetch(0)) == p1;
    LockAlone(p1, t);
    assert p1.workers[0 := Running(t)] == ws[0 := Running(t)];
    var p2 := Pool(rest, ws[0 := Running(t)], p.journal, after);
    var p3 := Pool(rest, ws[0 := Writing(Record(t.id, Passed))], p.journal, after);
    assert p2.workers[0 := Writing(Record(t.id, Passed))] == p3.workers && Next(p2, Complete(0, Passed)) == p3;
    assert p3.workers[0 := Asking] == ws;
    RunFour(p, Fetch(0), Lock(0), Complete(0, Passed), Write(0));
  }

  lemma {:induction false} LockAlone(p: Pool, t: Trial)
    requires p.workers != [] && p.workers[0] == Waiting(t) && forall i | 0 < i < |p.workers| :: p.workers[i].Asking?
    ensures Next(p, Lock(0)) ==
            p.(workers := p.workers[0 := Running(t)], started := p.started + [Start(t, p.journal)])
  {
    assert ProviderFree(p.workers, t.provider);
  }

  lemma {:induction false} RunFour(p: Pool, a: Step, b: Step, c: Step, d: Step)
    ensures Run(p, [a, b, c, d]) == Next(Next(Next(Next(p, a), b), c), d)
  {
    RunAppend(p, [a], [b, c, d]);
    RunAppend(Next(p, a), [b], [c, d]);
    RunAppend(Next(Next(p, a), b), [c], [d]);
    assert [a] + [b, c, d] == [a, b, c, d] && [b] + [c, d] == [b, c, d] && [c] + [d] == [c, d];
    RunOne(p, a);
    RunOne(Next(p, a), b);
    RunOne(Next(Next(p, a), b), c);
    RunOne(Next(Next(Next(p, a), b), c), d);
  }

  lemma {:induction false} RunOne(p: Pool, a: Step)
    ensures Run(p, [a]) == Next(p, a)
  {
    assert [a][1..] == [];
  }

  /** A queued trial whose id is settled, or occurs earlier in the queue, can be made
      to start once it is settled. */
  lemma {:induction false} RestartIsPossible(p: Pool, j: nat) returns (steps: seq<Step>)
    requires p.workers != [] && (forall w | w in p.workers :: w.Asking?) && j < |p.queue|
    requires Settled(p.journal, p.queue[j].id) || exists i: nat :: i < j && p.queue[i].id == p.queue[j].id
    ensures !NoRestart(Run(p, steps))
    decreases j
  {
    RoundPasses(p);
    var q := Run(p, ROUND);
    if j == 0 {
      assert q.started[|p.started|] in q.started;
      steps := ROUND;
    } else {
      assert q.queue[j - 1] == p.queue[j];
      if Settled(p.journal, p.queue[j].id) {
        var r :| r in p.journal && r.trial == p.queue[j].id && Terminal(r.status);
        assert r in q.journal;
      } else {
        var i: nat :| i < j && p.queue[i].id == p.queue[j].id;
        if i == 0 {
          assert q.journal[|p.journal|] in q.journal;
        } else {
          assert q.queue[i - 1] == p.queue[i];
        }
      }
      var later := RestartIsPossible(q, j - 1);
      RunAppend(p, ROUND, later);
      steps := ROUND + later;
    }
  }

  /** No schedule of a run restarts a settled trial if and only if the ids of the
      pending trials are distinct. */
  lemma {:induction false} NeverRestartsIffDistinct(pending: seq<Trial>, concurrency: nat, journal: seq<Record>)
    requires concurrency > 0 && Final(journal) && forall t | t in pending :: !Settled(journal, t.id)
    ensures (forall steps :: NoRestart(Run(Opened(pending, concurrency, journal), steps))) <==> Distinct(pending)
  {
    var p := Opened(pending, concurrency, journal);
    if Distinct(pending) {
      OpenedIsExclusive(pending, concurrency, journal);
      forall steps ensures NoRestart(Run(p, steps)) {
        RunKeeps(p, steps);
      }
    } else {
      var i, j :| 0 <= i < j < |pending| && pending[i].id == pending[j].id;
      var steps := RestartIsPossible(p, j);
    }
  }

  // ---- what is run again -------------------------------------------------------------------------------

  /** A trial without a record is pending; one that passed, failed or was unsupported is not, ever;
      one that the infrastructure let down is exactly when failures are to be rerun. */
  lemma {:induction false} RerunTakesFailures(planned: seq<Trial>, records: map<string, Record>, rerun: bool, t: Trial)
    requires t in planned
    ensures t.id !in records ==> t in Pending(planned, records, rerun)
    ensures t.id in records && records[t.id].status in {Passed, Failed, Unsupported} ==>
      t !in Pending(planned, records, rerun)
    ensures t.id in records && records[t.id].status in {ProviderError, HarnessError, NotRun, Cancelled} ==>
      (t in Pending(planned, records, rerun) <==> rerun)
  {
    PendingExactly(planned, records, rerun, t);
    QueuedHas(planned, t);
    QueuedHas(Pending(planned, records, rerun), t);
  }

  lemma {:induction false} QueuedHas(queue: seq<Trial>, t: Trial)
    ensures t in queue <==> Queued(queue, t) > 0
  {
    if queue != [] {
      QueuedHas(queue[1..], t);
      assert queue == [queue[0]] + queue[1..];
    }
  }

  // ---- every run comes to an end --------------------------------------------------------------------------

  /** There are as many workers as may run, but no more than there are trials, and one at least. */
  lemma {:induction false} WorkersAreBounded(pending: seq<Trial>, concurrency: nat, journal: seq<Record>,
                                             steps: seq<Step>)
    ensures var n := |Run(Opened(pending, concurrency, journal), steps).workers|;
      && n <= concurrency && (n <= |pending| || n <= 1)
      && (concurrency > 0 ==> n > 0) && (n == concurrency || n >= |pending|)
  {
    SameWorkers(Opened(pending, concurrency, journal), steps);
  }

  lemma {:induction false} SameWorkers(p: Pool, steps: seq<Step>)
    ensures |Run(p, steps).workers| == |p.workers|
    decreases |steps|
  {
    if steps != [] {
      assert |Next(p, steps[0]).workers| == |p.workers|;
      SameWorkers(Next(p, steps[0]), steps[1..]);
    }
  }

  predicate Done(w: Worker)
  {
    w.Finished? || w.Raised?
  }

  predicate AllDone(p: Pool)
  {
    forall w | w in p.workers :: Done(w)
  }

  /** No schedule gets stuck: as long as a worker is not done, some step does something. */
  lemma {:induction false} SomethingMoves(p: Pool) returns (step: Step)
    requires !AllDone(p)
    ensures Next(p, step) != p
  {
    var w :| w in p.workers && !Done(w);
    var k :| 0 <= k < |p.workers| && p.workers[k] == w;
    match w
    case Asking => step := Fetch(k);
    case Running(_) => step := Complete(k, Passed);
    case Writing(_) => step := Write(k);
    case Waiting(t) =>
      if ProviderFree(p.workers, t.provider) {
        step := Lock(k);
      } else {
        var r :| r in p.workers && r.Running? && r.trial.provider == t.provider;
        var j :| 0 <= j < |p.workers| && p.workers[j] == r;
        step := Complete(j, Passed);
        assert p.workers[j := Writing(Record(r.trial.id, Passed))][j] != p.workers[j];
      }
  }

  /** How much a worker has still to do before it asks again. */
  function Ahead(w: Worker): nat
  {
    match w
    case Asking => 1
    case Waiting(_) => 4
    case Running(_) => 3
    case Writing(_) => 2
    case _ => 0
  }

  function AllAhead(workers: seq<Worker>): nat
  {
    if workers == [] then 0 else Ahead(workers[0]) + AllAhead(workers[1..])
  }

  function Remaining(p: Pool): nat
  {
    4 * |p.queue| + AllAhead(p.workers)
  }

  lemma {:induction false} AheadUpdate(workers: seq<Worker>, k: nat, w: Worker)
    requires k < |workers|
    ensures AllAhead(workers[k := w]) + Ahead(workers[k]) == AllAhead(workers) + Ahead(w)
  {
    if k == 0 {
      assert workers[0 := w][1..] == workers[1..];
    } else {
      assert workers[k := w][1..] == workers[1..][k - 1 := w];
      AheadUpdate(workers[1..], k - 1, w);
    }
  }

  /** Every step that does something leaves less to do. */
  lemma {:induction false} EachStepEnds(p: Pool, step: Step)
    ensures Next(p, step) == p || Remaining(Next(p, step)) < Remaining(p)
  {
    if step.w < |p.workers| {
      AheadUpdate(p.workers, step.w, Next(p, step).workers[step.w]);
    }
  }

  /** From every pool, whatever has happened, the workers can be brought to their end, and no
      schedule takes more steps that do something than there was left to do. */
  lemma {:induction false} PoolsFinish(p: Pool) returns (steps: seq<Step>)
    ensures AllDone(Run(p, steps)) && |steps| <= Remaining(p)
    decreases Remaining(p)
  {
    if AllDone(p) {
      steps := [];
    } else {
      var step := SomethingMoves(p);
      EachStepEnds(p, step);
      var rest := PoolsFinish(Next(p, step));
      steps := [step] + rest;
      assert steps[1..] == rest;
    }
  }

  predicate AllMove(p: Pool, steps: seq<Step>)
    decreases |steps|
  {
    steps == [] || (Next(p, steps[0]) != p && AllMove(Next(p, steps[0]), steps[1..]))
  }

  lemma {:induction false} SchedulesEnd(p: Pool, steps: seq<Step>)
    requires AllMove(p, steps)
    ensures |steps| <= Remaining(p)
    decreases |steps|
  {
    if steps != [] {
      EachStepEnds(p, steps[0]);
      SchedulesEnd(Next(p, steps[0]), steps[1..]);
    }
  }

  // ---- what is journaled ------------------------------------------------------------------------------------

  ghost predicate WasStarted(started: seq<Start>, id: string)
  {
    exists s :: s in started && s.trial.id == id
  }

  /** What is run, written or journaled since `before` has been started. */
  ghost predicate Honest(before: seq<Record>, p: Pool)
  {
    && before <= p.journal
    && (forall w | w in p.workers && w.Running? :: WasStarted(p.started, w.trial.id))
    && (forall w | w in p.workers && w.Writing? :: WasStarted(p.started, w.record.trial))
    && (forall r | r in p.journal[|before|..] :: WasStarted(p.started, r.trial))
  }

  lemma {:induction false} NextStaysHonest(before: seq<Record>, p: Pool, step: Step)
    requires Honest(before, p)
    ensures Honest(before, Next(p, step))
  {
    var p' := Next(p, step);
    forall id | WasStarted(p.started, id) ensures WasStarted(p'.started, id) {
      var s :| s in p.started && s.trial.id == id;
      assert s in p'.started;
    }
    if step.w < |p.workers| {
      var me := p.workers[step.w];
      assert me in p.workers;
      if step.Lock? && p' != p {
        assert Start(me.trial, p.journal) in p'.started;
      }
      if step.Write? && me.Writing? {
        assert p'.journal[|before|..] == p.journal[|before|..] + [me.record];
      }
    }
  }

  lemma {:induction false} RunStaysHonest(before: seq<Record>, p: Pool, steps: seq<Step>)
    requires Honest(before, p)
    ensures Honest(before, Run(p, steps))
    decreases |steps|
  {
    if steps != [] {
      NextStaysHonest(before, p, steps[0]);
      RunStaysHonest(before, Next(p, steps[0]), steps[1..]);
    }
  }

  /** The journal only grows, and only by records of trials that were started. */
  lemma {:induction false} JournalIsHonest(pending: seq<Trial>, concurrency: nat, journal: seq<Record>,
                                           steps: seq<Step>)
    ensures var p := Run(Opened(pending, concurrency, journal), steps);
      journal <= p.journal && forall r | r in p.journal[|journal|..] :: WasStarted(p.started, r.trial)
  {
    RunStaysHonest(journal, Opened(pending, concurrency, journal), steps);
  }
}
