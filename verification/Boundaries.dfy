/** The compaction boundary over the life of a conversation. */
module Boundaries {
  import opened Options
  import opened Messages
  import opened Repair
  import opened Conservation
  import opened Drains
  import opened Landings
  import opened Appending
  import opened Compaction

  /** A history and its compaction boundary. */
  datatype State = State(ms: seq<Message>, b: Boundary)

  datatype Step =
    | User(content: Content)
    | Assistant(m: Message)
    | Extended(more: seq<Message>)
    | Folded(text: string, keepRecent: nat, minPrefix: nat)

  function Next(s: State, step: Step): State
  {
    match step
    case User(content) => s.(ms := AppendUser(s.ms, content))
    case Assistant(m) => s.(ms := AppendAssistant(s.ms, m))
    case Extended(more) => s.(ms := Repaired(s.ms + more))
    case Folded(text, keepRecent, minPrefix) =>
      var split := SplitPoint(s.ms, keepRecent, minPrefix);
      if split.None? then s else s.(b := Compacted(s.ms, text, split.value))
  }

  /** The boundary separates no call from the message after it. */
  predicate SafelyCut(ms: seq<Message>, b: Boundary)
  {
    b.summary.Some? ==> b.through <= |ms| && SafeCut(ms, b.through)
  }

  /** The boundary is a safe cut now and after each of the steps. */
  ghost predicate StaysSafe(s: State, steps: seq<Step>)
    decreases |steps|
  {
    SafelyCut(s.ms, s.b) && (steps != [] ==> StaysSafe(Next(s, steps[0]), steps[1..]))
  }

  // ---- exactly when repair leaves the boundary a safe cut ----------------------------------------

  /** Place `through` of the repaired history exists and does not come right after a
      call-bearing message, as far as the run tells. */
  ghost predicate RunCutsAt(slots: seq<Slot>, b: Boundary)
  {
    b.summary.Some? ==> b.through <= Emitted(slots, |slots|) && (b.through == 0 || !CallsAt(slots, b.through - 1))
  }

  /** The same, read off the history: no call-bearing message lands right before the
      boundary. */
  ghost predicate CutsAt(ms: seq<Message>, b: Boundary)
  {
    b.summary.Some? ==> b.through <= Landing(ms, |ms|) && (b.through == 0 || !CallsLandAt(ms, b.through - 1))
  }

  /** For every history and every boundary. */
  lemma {:induction false} SafeAfterRepairIffRun(ms: seq<Message>, b: Boundary)
    ensures SafelyCut(Repaired(ms), b) <==> RunCutsAt(Undrained(ms), b)
  {
    SafeIffRun(Undrained(ms), b);
  }

  lemma {:induction false} SafeIffRun(slots: seq<Slot>, b: Boundary)
    requires OnlyUserBlocksDrained(slots)
    ensures SafelyCut(RepairSlots(slots), b) <==> RunCutsAt(slots, b)
  {
    RunLength(slots);
    if 0 < b.through <= |RepairSlots(slots)| {
      RunCalls(slots, b.through - 1);
    }
  }

  /** Where each call has at most one answer, repairing leaves the boundary a safe cut
      if and only if no call-bearing message lands right before it. */
  lemma {:induction false} SafeAfterRepairIff(ms: seq<Message>, b: Boundary)
    requires OneAnswerEach(ms)
    ensures SafelyCut(Repaired(ms), b) <==> CutsAt(ms, b)
  {
    MessagesLand(ms);
  }

  lemma {:induction false} HitsOnce(blocks: seq<Block>, c: Block)
    requires c.ToolCall? && Modern(blocks) && OnePerExecution(blocks)
    ensures Hits(blocks, c) <= if Holds(blocks, Some(c.executionId)) then 1 else 0
  {
    if blocks != [] {
      var rest := blocks[1..];
      assert blocks == [blocks[0]] + rest && blocks[0] in blocks;
      assert forall k | 0 <= k < |rest| :: rest[k] == blocks[k + 1];
      HitsOnce(rest, c);
    }
  }

  lemma {:induction false} HitsAppend(xs: seq<Block>, ys: seq<Block>, c: Block)
    ensures Hits(xs + ys, c) == Hits(xs, c) + Hits(ys, c)
  {
    if xs == [] {
      assert xs + ys == ys;
    } else {
      assert (xs + ys)[1..] == xs[1..] + ys;
      HitsAppend(xs[1..], ys, c);
    }
  }

  lemma {:induction false} AnswersToIsHits(ms: seq<Message>, c: Block)
    ensures AnswersTo(ms, c) == Hits(Flat(ms), c)
  {
    if ms != [] {
      AnswersToIsHits(ms[1..], c);
      HitsAppend(BlocksOf(ms[0]), Flat(ms[1..]), c);
    }
  }

  /** One result per execution, as appends keep it, is one answer per call. */
  lemma {:induction false} SoundHasOneAnswerEach(ms: seq<Message>)
    requires Sound(Flat(ms))
    ensures OneAnswerEach(ms)
  {
    forall c | c in AllCalls(ms) ensures AnswersTo(ms, c) <= 1 {
      AllCallsHas(ms, c);
      AnswersToIsHits(ms, c);
      HitsOnce(Flat(ms), c);
    }
  }

  // ---- an extension that moves the boundary between a call and its result ----------------------------

  /** A call without a result before the boundary: repair gives it one, every later
      message moves up, and the boundary now follows the second call. */
  lemma {:induction false} ExtensionSplitsExchange(a1: Message, u: Message, a2: Message, u2: Message, r: Block,
                                                   summary: Message)
    requires HasCalls(a1) && HasCalls(a2)
    requires u.role.User? && u.content.Str? && u2.role.User? && u2.content == Blocks([r])
    ensures var s := State([a1, u, a2, u2], Boundary(Some(summary), 4));
      var s' := Next(s, Extended([]));
      SafelyCut(s.ms, s.b) && !SafelyCut(s'.ms, s'.b)
  {
    var ms, b := [a1, u, a2, u2], Boundary(Some(summary), 4);
    assert ms + [] == ms;
    forall c | c in AllCalls(ms) ensures AnswersTo(ms, c) <= 1 {
      FewAnswers(ms, r, c);
    }
    assert Width(ms, 0) == 2 && Width(ms, 1) == 1;
    assert Widths(ms, 2, 2) == 0 && Widths(ms, 1, 2) == 1 && Landing(ms, 2) == 3;
    assert HasCalls(ms[2]) && CallsLandAt(ms, 3);
    SafeAfterRepairIff(ms, b);
  }

  lemma {:induction false} FewAnswers(ms: seq<Message>, r: Block, c: Block)
    requires |ms| == 4 && ms[3].content == Blocks([r]) && forall i | 0 <= i < 3 :: !IsUserBlocks(ms[i])
    ensures AnswersTo(ms, c) <= 1
  {
    var last := ms[3..];
    assert ms[1..][1..][1..] == last && last[1..] == [] && last[0] == ms[3];
    assert [r][1..] == [];
    assert Hits([r][1..], c) == 0 && Hits([r], c) <= 1;
    assert AnswersTo(last[1..], c) == 0 && BlocksOf(last[0]) == [r] && AnswersTo(last, c) <= 1;
    assert ms[1..][0] == ms[1] && ms[1..][1..][0] == ms[2];
    assert AnswersTo(ms[1..][1..], c) == AnswersTo(last, c) && AnswersTo(ms[1..], c) == AnswersTo(last, c);
  }

  // ---- appends and compactions -----------------------------------------------------------------------

  lemma {:induction false} WalkKeepsCalls(ms: seq<Message>, pending: seq<Block>, i: nat)
    requires AllResults(pending) && i < |ms|
    ensures HasCalls(WalkHistory(ms, pending).0[i]) == HasCalls(ms[i])
    decreases |ms|
  {
    if i > 0 {
      WalkKeepsCalls(ms[1..], if IsUserBlocks(ms[0]) then Walk(BlocksOf(ms[0]), pending).1 else pending, i - 1);
    }
  }

  /** `now` has all messages of `ms`, and calls where those have them. */
  ghost predicate SameCalls(ms: seq<Message>, now: seq<Message>)
  {
    |ms| <= |now| && forall i | 0 <= i < |ms| :: HasCalls(now[i]) == HasCalls(ms[i])
  }

  lemma {:induction false} UserKeepsCalls(ms: seq<Message>, content: Content)
    ensures SameCalls(ms, AppendUser(ms, content))
  {
    var blocks := Incoming(content);
    PendingAreResults(blocks);
    if Pending(blocks) != [] {
      forall i: nat | i < |ms| ensures HasCalls(WalkHistory(ms, Pending(blocks)).0[i]) == HasCalls(ms[i]) {
        WalkKeepsCalls(ms, Pending(blocks), i);
      }
    }
  }

  lemma {:induction false} SameCallsStaySafe(ms: seq<Message>, now: seq<Message>, b: Boundary)
    requires SafelyCut(ms, b) && SameCalls(ms, now)
    ensures SafelyCut(now, b)
  {
  }

  /** Only an extension can leave the boundary an unsafe cut. */
  lemma {:induction false} OtherStepsStaySafe(s: State, step: Step)
    requires SafelyCut(s.ms, s.b) && !step.Extended?
    ensures SafelyCut(Next(s, step).ms, Next(s, step).b)
  {
    match step
    case User(content) =>
      UserKeepsCalls(s.ms, content);
      SameCallsStaySafe(s.ms, AppendUser(s.ms, content), s.b);
    case Assistant(m) => SameCallsStaySafe(s.ms, AppendAssistant(s.ms, m), s.b);
    case Folded(_, _, _) =>
  }

  // ---- exactly which runs are safe -------------------------------------------------------------------

  /** In each history that is extended, with what it is extended by, each call has at
      most one answer. */
  ghost predicate AnswersOnce(s: State, steps: seq<Step>)
    decreases |steps|
  {
    steps == [] ||
    ((steps[0].Extended? ==> OneAnswerEach(s.ms + steps[0].more)) && AnswersOnce(Next(s, steps[0]), steps[1..]))
  }

  /** At each extension no call-bearing message lands right before the boundary. */
  ghost predicate ExtendsClear(s: State, steps: seq<Step>)
    decreases |steps|
  {
    steps == [] ||
    ((steps[0].Extended? ==> CutsAt(s.ms + steps[0].more, s.b)) && ExtendsClear(Next(s, steps[0]), steps[1..]))
  }

  /** A run of appends, extensions and compactions keeps the boundary a safe cut
      throughout if and only if no extension lands a call-bearing message before it. */
  lemma {:induction false} RunStaysSafeIff(s: State, steps: seq<Step>)
    requires SafelyCut(s.ms, s.b) && AnswersOnce(s, steps)
    ensures StaysSafe(s, steps) <==> ExtendsClear(s, steps)
    decreases |steps|
  {
    if steps != [] {
      var step := steps[0];
      var s' := Next(s, step);
      if step.Extended? {
        SafeAfterRepairIff(s.ms + step.more, s.b);
      } else {
        OtherStepsStaySafe(s, step);
      }
      if SafelyCut(s'.ms, s'.b) {
        RunStaysSafeIff(s', steps[1..]);
      }
    }
  }

  // ---- a prefix that is paired when it is folded -------------------------------------------------------

  /** The results of user messages carry execution ids. */
  ghost predicate AllModern(ms: seq<Message>)
  {
    forall m | m in ms && IsUserBlocks(m) :: Modern(BlocksOf(m))
  }

  /** The messages before the boundary are whole exchanges with execution ids. */
  ghost predicate Sealed(ms: seq<Message>, b: Boundary)
  {
    b.summary.Some? ==> b.through <= |ms| && PairedInOrder(ms[..b.through]) && AllModern(ms[..b.through])
  }

  lemma {:induction false} SealedIsSafe(ms: seq<Message>, b: Boundary)
    requires Sealed(ms, b)
    ensures SafelyCut(ms, b)
  {
    if b.summary.Some? && b.through > 0 {
      assert ms[..b.through][b.through - 1] == ms[b.through - 1];
    }
  }

  /** Incoming results carry execution ids, and a prefix is paired when it is folded. */
  ghost predicate FoldsPaired(s: State, steps: seq<Step>)
    decreases |steps|
  {
    steps == [] ||
    (StepFits(s, steps[0]) && FoldsPaired(Next(s, steps[0]), steps[1..]))
  }

  ghost predicate StepFits(s: State, step: Step)
  {
    match step
    case User(content) => Modern(Incoming(content))
    case Folded(_, _, _) => Sealed(s.ms, Next(s, step).b)
    case _ => true
  }

  /** A repaired history is paired, so compacting one is always such a fold; a safe split
      point cuts no exchange. */
  lemma {:induction false} PairedHistoryFolds(s: State, step: Step)
    requires step.Folded? && Sealed(s.ms, s.b) && PairedInOrder(s.ms) && AllModern(s.ms)
    ensures StepFits(s, step)
  {
    var split := SplitPoint(s.ms, step.keepRecent, step.minPrefix);
    if split.Some? {
      PairedFront(s.ms, split.value);
      assert forall m | m in s.ms[..split.value] :: m in s.ms;
    }
  }

  /** The same blocks, or results of the same executions in their place. */
  ghost predicate SameExecutions(was: seq<Block>, now: seq<Block>)
  {
    |was| == |now| && forall k | 0 <= k < |was| ::
      was[k].ToolResult? == now[k].ToolResult? && ExecutionOf(was[k]) == ExecutionOf(now[k])
  }

  lemma {:induction false} WalkKeepsExecutions(blocks: seq<Block>, pending: seq<Block>)
    requires AllResults(pending) && Modern(pending) && Modern(blocks)
    ensures SameExecutions(blocks, Walk(blocks, pending).0) && Modern(Walk(blocks, pending).1)
  {
    if blocks != [] {
      assert blocks[0] in blocks && forall x | x in blocks[1..] :: x in blocks;
      var first := Settle(blocks[0], pending);
      assert forall i | 0 <= i < |pending| :: pending[i] in pending;
      WalkKeepsExecutions(blocks[1..], first.1);
      var now := Walk(blocks, pending).0;
      assert now[1..] == Walk(blocks[1..], first.1).0;
      forall k | 0 < k < |blocks| ensures blocks[k] == blocks[1..][k - 1] && now[k] == now[1..][k - 1] {
      }
    }
  }

  ghost predicate SameMessage(m: Message, now: Message)
  {
    if IsUserBlocks(m) then IsUserBlocks(now) && SameExecutions(BlocksOf(m), BlocksOf(now)) else now == m
  }

  ghost predicate SameMessages(ms: seq<Message>, now: seq<Message>)
  {
    |ms| == |now| && forall i | 0 <= i < |ms| :: SameMessage(ms[i], now[i])
  }

  lemma {:induction false} WalkKeepsMessages(ms: seq<Message>, pending: seq<Block>)
    requires AllResults(pending) && Modern(pending) && AllModern(ms)
    ensures SameMessages(ms, WalkHistory(ms, pending).0)
  {
    if ms != [] {
      assert ms[0] in ms;
      var now := WalkHistory(ms, pending).0;
      assert AllModern(ms[1..]);
      if IsUserBlocks(ms[0]) {
        var w := Walk(BlocksOf(ms[0]), pending);
        WalkKeepsExecutions(BlocksOf(ms[0]), pending);
        WalkKeepsMessages(ms[1..], w.1);
        assert now[1..] == WalkHistory(ms[1..], w.1).0 && BlocksOf(now[0]) == w.0;
      } else {
        WalkKeepsMessages(ms[1..], pending);
        assert now[1..] == WalkHistory(ms[1..], pending).0;
      }
      SameFirst(ms, now);
    }
  }

  lemma {:induction false} SameFirst(ms: seq<Message>, now: seq<Message>)
    requires ms != [] && now != [] && SameMessage(ms[0], now[0]) && SameMessages(ms[1..], now[1..])
    ensures SameMessages(ms, now)
  {
    forall i | 0 < i < |ms| ensures SameMessage(ms[i], now[i]) {
      assert ms[1..][i - 1] == ms[i] && now[1..][i - 1] == now[i];
    }
  }

  lemma {:induction false} WalkFront(ms: seq<Message>, pending: seq<Block>, n: nat)
    requires AllResults(pending) && n <= |ms|
    ensures WalkHistory(ms[..n], pending).0 == WalkHistory(ms, pending).0[..n]
  {
    if n > 0 {
      assert ms[..n][1..] == ms[1..][..n - 1];
      WalkFront(ms[1..], if IsUserBlocks(ms[0]) then Walk(BlocksOf(ms[0]), pending).1 else pending, n - 1);
    }
  }

  lemma {:induction false} SameAnswers(calls: seq<Block>, m: Message, now: Message)
    requires SameMessage(m, now) && IsUserBlocks(m) && Modern(BlocksOf(m)) && AnswersInOrder(calls, m)
    ensures AnswersInOrder(calls, now)
  {
    forall k | 0 <= k < |calls| ensures Answers(calls[k], BlocksOf(now)[k]) {
      assert Answers(calls[k], BlocksOf(m)[k]) && BlocksOf(m)[k] in BlocksOf(m);
    }
  }

  lemma {:induction false} SameModern(was: seq<Block>, now: seq<Block>)
    requires SameExecutions(was, now) && Modern(was)
    ensures Modern(now)
  {
    forall b | b in now && b.ToolResult? ensures b.execution.Some? {
      var k :| 0 <= k < |now| && now[k] == b;
      assert was[k] in was;
    }
  }

  lemma {:induction false} SameMessagesStayPaired(ms: seq<Message>, now: seq<Message>)
    requires SameMessages(ms, now) && PairedInOrder(ms) && AllModern(ms)
    ensures PairedInOrder(now) && AllModern(now)
  {
    forall i | 0 <= i < |now| && HasCalls(now[i])
      ensures i + 1 < |now| && AnswersInOrder(Calls(now[i]), now[i + 1])
    {
      assert SameMessage(ms[i], now[i]) && HasCalls(ms[i]) && SameMessage(ms[i + 1], now[i + 1]);
      assert ms[i + 1] in ms;
      SameAnswers(Calls(ms[i]), ms[i + 1], now[i + 1]);
    }
    forall m | m in now && IsUserBlocks(m) ensures Modern(BlocksOf(m)) {
      var i :| 0 <= i < |now| && now[i] == m;
      assert SameMessage(ms[i], now[i]) && ms[i] in ms;
      SameModern(BlocksOf(ms[i]), BlocksOf(m));
    }
  }

  /** Reconciling incoming results keeps a sealed prefix sealed. */
  lemma {:induction false} UserKeepsSeal(ms: seq<Message>, content: Content, b: Boundary)
    requires Sealed(ms, b) && Modern(Incoming(content))
    ensures Sealed(AppendUser(ms, content), b)
  {
    var blocks, now := Incoming(content), AppendUser(ms, content);
    PendingIsLast(blocks);
    if b.summary.Some? {
      var front := ms[..b.through];
      if Pending(blocks) == [] {
        assert now[..b.through] == front;
      } else {
        WalkFront(ms, Pending(blocks), b.through);
        WalkKeepsMessages(front, Pending(blocks));
        assert now[..b.through] == WalkHistory(front, Pending(blocks)).0;
        SameMessagesStayPaired(front, now[..b.through]);
      }
    }
  }

  /** Repair passes a sealed prefix on as it is. */
  lemma {:induction false} ExtendKeepsSeal(ms: seq<Message>, more: seq<Message>, b: Boundary)
    requires Sealed(ms, b)
    ensures Sealed(Repaired(ms + more), b)
  {
    if b.summary.Some? {
      var front, rest := ms[..b.through], ms[b.through..];
      assert ms + more == front + (rest + more);
      PairedPrefixIsStable(front, rest + more);
      assert Repaired(ms + more)[..b.through] == front;
    }
  }

  lemma {:induction false} NextKeepsSeal(s: State, step: Step)
    requires Sealed(s.ms, s.b) && StepFits(s, step)
    ensures Sealed(Next(s, step).ms, Next(s, step).b)
  {
    match step
    case User(content) => UserKeepsSeal(s.ms, content, s.b);
    case Assistant(m) =>
      if s.b.summary.Some? {
        assert AppendAssistant(s.ms, m)[..s.b.through] == s.ms[..s.b.through];
      }
    case Extended(more) => ExtendKeepsSeal(s.ms, more, s.b);
    case Folded(_, _, _) =>
  }

  /** Where results carry execution ids it is enough to look when a prefix is folded: if
      its exchanges are whole then, every later append, extension and compaction
      keeps them so, and the boundary stays a safe cut. */
  lemma {:induction false} BoundaryStaysSafe(s: State, steps: seq<Step>)
    requires Sealed(s.ms, s.b) && FoldsPaired(s, steps)
    ensures StaysSafe(s, steps)
    decreases |steps|
  {
    SealedIsSafe(s.ms, s.b);
    if steps != [] {
      NextKeepsSeal(s, steps[0]);
      BoundaryStaysSafe(Next(s, steps[0]), steps[1..]);
    }
  }
}
