/** What a user message that is appended becomes: nothing that comes in is lost, and
    nothing that is held moves. */
module AppendedContent {
  import opened Options
  import opened Messages
  import opened Appending

  // ---- what is not a tool result -----------------------------------------------------------------

  /** The blocks that are no tool results, in order. */
  function NonResults(blocks: seq<Block>): seq<Block>
  {
    if blocks == [] then []
    else (if blocks[0].ToolResult? then [] else [blocks[0]]) + NonResults(blocks[1..])
  }

  lemma {:induction false} NonResultsAppend(xs: seq<Block>, ys: seq<Block>)
    ensures NonResults(xs + ys) == NonResults(xs) + NonResults(ys)
  {
    if xs == [] {
      assert xs + ys == ys;
    } else {
      assert (xs + ys)[1..] == xs[1..] + ys;
      NonResultsAppend(xs[1..], ys);
    }
  }

  lemma {:induction false} OthersAreNonResults(blocks: seq<Block>)
    ensures Others(blocks) == NonResults(blocks)
  {
    if blocks != [] {
      var front, b := blocks[..|blocks| - 1], blocks[|blocks| - 1];
      OthersAreNonResults(front);
      assert blocks == front + [b];
      NonResultsAppend(front, [b]);
      assert [b][1..] == [];
    }
  }

  lemma {:induction false} AllResultsHaveNone(blocks: seq<Block>)
    requires AllResults(blocks)
    ensures NonResults(blocks) == []
  {
    if blocks != [] {
      assert blocks[0] in blocks && forall b | b in blocks[1..] :: b in blocks;
      AllResultsHaveNone(blocks[1..]);
    }
  }

  lemma {:induction false} NonResultsTwice(blocks: seq<Block>)
    ensures NonResults(NonResults(blocks)) == NonResults(blocks)
  {
    if blocks != [] {
      var first := if blocks[0].ToolResult? then [] else [blocks[0]];
      NonResultsTwice(blocks[1..]);
      NonResultsAppend(first, NonResults(blocks[1..]));
      assert [blocks[0]][1..] == [];
    }
  }

  lemma {:induction false} WalkKeepsOthers(blocks: seq<Block>, pending: seq<Block>)
    requires AllResults(pending)
    ensures NonResults(Walk(blocks, pending).0) == NonResults(blocks)
  {
    if blocks != [] {
      var first := Settle(blocks[0], pending);
      assert forall k | 0 <= k < |pending| :: pending[k] in pending;
      WalkKeepsOthers(blocks[1..], first.1);
      assert Walk(blocks, pending).0[1..] == Walk(blocks[1..], first.1).0;
    }
  }

  /** Everything that is not a tool result is kept, held or incoming, in order; empty content
      is recorded as such. */
  lemma {:induction false} AppendKeepsTexts(ms: seq<Message>, content: Content)
    ensures NonResults(Flat(AppendUser(ms, content))) == NonResults(Flat(ms)) +
      if Incoming(content) == [] then [Text("[User provided no message content]")] else NonResults(Incoming(content))
  {
    var blocks := Incoming(content);
    PendingAreResults(blocks);
    if Pending(blocks) == [] {
      var added := if blocks == [] then [Text(NO_USER_CONTENT)] else blocks;
      FlatAppend(ms, UserMessage(added));
      NonResultsAppend(Flat(ms), added);
      assert [Text(NO_USER_CONTENT)][1..] == [];
    } else {
      WalkedTexts(ms, blocks, Pending(blocks));
      PendingMeans(blocks);
    }
  }

  lemma {:induction false} WalkedTexts(ms: seq<Message>, blocks: seq<Block>, ps: seq<Block>)
    requires AllResults(ps)
    ensures var w := WalkHistory(ms, ps);
      var added := w.1 + Others(blocks);
      NonResults(Flat(if added == [] then w.0 else w.0 + [UserMessage(added)])) ==
      NonResults(Flat(ms)) + NonResults(blocks)
  {
    var w := WalkHistory(ms, ps);
    var added := w.1 + Others(blocks);
    WalkHistoryIsFlat(ms, ps);
    WalkKeepsOthers(Flat(ms), ps);
    FlatAppend(w.0, UserMessage(added));
    NonResultsAppend(Flat(w.0), added);
    AddedTexts(w.1, blocks);
    assert Flat(w.0) + [] == Flat(w.0);
  }

  lemma {:induction false} AddedTexts(left: seq<Block>, blocks: seq<Block>)
    requires AllResults(left)
    ensures NonResults(left + Others(blocks)) == NonResults(blocks)
  {
    AllResultsHaveNone(left);
    NonResultsAppend(left, Others(blocks));
    OthersAreNonResults(blocks);
    NonResultsTwice(blocks);
    assert [] + NonResults(blocks) == NonResults(blocks);
  }

  lemma {:induction false} PendingMeans(blocks: seq<Block>)
    requires Pending(blocks) != []
    ensures blocks != []
  {
  }

  // ---- where things stand ------------------------------------------------------------------------------

  /** The same message, or user blocks with results exchanged one for one. */
  predicate Held(m: Message, now: Message)
  {
    if !IsUserBlocks(m) then now == m
    else now.role == m.role && now.meta == m.meta && IsUserBlocks(now) && |BlocksOf(now)| == |BlocksOf(m)| &&
         NonResults(BlocksOf(now)) == NonResults(BlocksOf(m))
  }

  lemma {:induction false} WalkHolds(ms: seq<Message>, pending: seq<Block>, i: nat)
    requires AllResults(pending) && i < |ms|
    ensures Held(ms[i], WalkHistory(ms, pending).0[i])
    decreases |ms|
  {
    if i > 0 {
      WalkHolds(ms[1..], if IsUserBlocks(ms[0]) then Walk(BlocksOf(ms[0]), pending).1 else pending, i - 1);
    } else if IsUserBlocks(ms[0]) {
      WalkKeepsOthers(BlocksOf(ms[0]), pending);
    }
  }

  /** What goes into a message of its own: results first, then everything else. */
  ghost predicate NewMessage(m: Message, blocks: seq<Block>, results: seq<Block>)
  {
    && m == Message(User, Blocks(results + NonResults(blocks)), NO_META)
    && results + NonResults(blocks) != [] && AllResults(results)
  }

  /** Every message stays in its place, with at most results exchanged, and at most one is
      added behind them. */
  lemma {:induction false} AppendKeepsPlaces(ms: seq<Message>, content: Content)
    ensures var now := AppendUser(ms, content);
      && |ms| <= |now| <= |ms| + 1
      && (forall i: nat | i < |ms| :: Held(ms[i], now[i]))
      && (|now| > |ms| && Incoming(content) != [] ==>
            BlocksOf(now[|ms|]) == Incoming(content) ||
            exists results :: NewMessage(now[|ms|], Incoming(content), results))
      && (|now| > |ms| ==> now[|ms|].role.User? && now[|ms|].meta == NO_META && now[|ms|].content.Blocks?)
      && (|now| == |ms| ==> Incoming(content) != [] && NonResults(Incoming(content)) == [])
  {
    var blocks := Incoming(content);
    var ps := Pending(blocks);
    PendingAreResults(blocks);
    var w := WalkHistory(ms, ps);
    forall i: nat | i < |ms| ensures Held(ms[i], w.0[i]) {
      WalkHolds(ms, ps, i);
    }
    OthersAreNonResults(blocks);
    if ps != [] && w.1 + Others(blocks) != [] {
      assert NewMessage(AppendUser(ms, content)[|ms|], blocks, w.1);
    }
  }

  // ---- the order of incoming results -------------------------------------------------------------------

  /** Where the first result of execution `e` stands. */
  function PlaceOf(blocks: seq<Block>, e: Option<string>): nat
  {
    if blocks == [] || (blocks[0].ToolResult? && blocks[0].execution == e) then 0 else 1 + PlaceOf(blocks[1..], e)
  }

  /** Pending results stand in the order in which their executions first come in. */
  ghost predicate InOrder(blocks: seq<Block>, ps: seq<Block>)
  {
    forall i, j | 0 <= i < j < |ps| :: PlaceOf(blocks, ExecutionOf(ps[i])) < PlaceOf(blocks, ExecutionOf(ps[j]))
  }

  lemma {:induction false} PlaceSnoc(front: seq<Block>, b: Block, e: Option<string>)
    ensures Holds(front, e) ==> PlaceOf(front + [b], e) == PlaceOf(front, e) < |front|
    ensures !Holds(front, e) && b.ToolResult? && b.execution == e ==> PlaceOf(front + [b], e) == |front|
  {
    var blocks := front + [b];
    if front == [] {
      assert blocks == [b];
    } else {
      assert blocks[1..] == front[1..] + [b] && front[0] in front;
      PlaceSnoc(front[1..], b, e);
      assert front == [front[0]] + front[1..];
    }
  }

  lemma {:induction false} PendingInOrder(blocks: seq<Block>)
    requires Modern(blocks)
    ensures InOrder(blocks, Pending(blocks))
  {
    if blocks != [] {
      var n := |blocks| - 1;
      var front, b := blocks[..n], blocks[n];
      assert blocks == front + [b];
      assert b in blocks && forall x | x in front :: x in blocks;
      PendingInOrder(front);
      PendingIsLast(front);
      assert Pending(blocks) == if b.ToolResult? then AddResult(Pending(front), b) else Pending(front);
      OneMoreInOrder(front, b, Pending(front), Pending(blocks));
    }
  }

  lemma {:induction false} PendingCameIn(front: seq<Block>, ps: seq<Block>, i: nat)
    requires AllResults(ps) && i < |ps| && forall p | p in ps :: exists k :: LastOf(front, k, p)
    ensures Holds(front, ExecutionOf(ps[i]))
  {
    assert ps[i] in ps;
    var k: nat :| LastOf(front, k, ps[i]);
    assert front[k] in front;
  }

  lemma {:induction false} SameExecutionStays(ps: seq<Block>, b: Block, x: nat)
    requires AllResults(ps) && Modern(ps) && b.ToolResult? && b.execution.Some? && x < |ps|
    ensures ExecutionOf(AddResult(ps, b)[x]) == ExecutionOf(ps[x])
    ensures |AddResult(ps, b)| == |ps| || (|AddResult(ps, b)| == |ps| + 1 && FirstSame(ps, b).None?)
  {
    var k := FirstSame(ps, b);
    assert ps[x] in ps && (k.Some? ==> ps[k.value] in ps);
  }

  lemma {:induction false} PairInOrder(front: seq<Block>, b: Block, ps: seq<Block>, i: nat, j: nat)
    requires AllResults(ps) && InOrder(front, ps) && i < j < |ps|
    requires forall p | p in ps :: exists k :: LastOf(front, k, p)
    ensures PlaceOf(front + [b], ExecutionOf(ps[i])) < PlaceOf(front + [b], ExecutionOf(ps[j]))
  {
    PendingCameIn(front, ps, i);
    PendingCameIn(front, ps, j);
    PlaceSnoc(front, b, ExecutionOf(ps[i]));
    PlaceSnoc(front, b, ExecutionOf(ps[j]));
  }

  lemma {:induction false} LastInOrder(front: seq<Block>, b: Block, ps: seq<Block>, i: nat)
    requires AllResults(ps) && Modern(ps) && i < |ps| && b.ToolResult? && b.execution.Some? && FirstSame(ps, b).None?
    requires forall x | x in front && x.ToolResult? :: Holds(ps, x.execution)
    requires forall p | p in ps :: exists k :: LastOf(front, k, p)
    ensures PlaceOf(front + [b], ExecutionOf(ps[i])) < PlaceOf(front + [b], b.execution)
  {
    PendingCameIn(front, ps, i);
    PlaceSnoc(front, b, ExecutionOf(ps[i]));
    NewIsLast(front, b, ps);
    PlaceSnoc(front, b, b.execution);
  }

  lemma {:induction false} OneMoreInOrder(front: seq<Block>, b: Block, ps: seq<Block>, ps': seq<Block>)
    requires Modern(front + [b]) && AllResults(ps) && Modern(ps) && InOrder(front, ps)
    requires forall x | x in front && x.ToolResult? :: Holds(ps, x.execution)
    requires forall p | p in ps :: exists k :: LastOf(front, k, p)
    requires ps' == if b.ToolResult? then AddResult(ps, b) else ps
    ensures InOrder(front + [b], ps')
  {
    assert b in front + [b];
    forall i, j | 0 <= i < j < |ps'|
      ensures PlaceOf(front + [b], ExecutionOf(ps'[i])) < PlaceOf(front + [b], ExecutionOf(ps'[j]))
    {
      if b.ToolResult? && |ps| > 0 {
        SameExecutionStays(ps, b, if i < |ps| then i else 0);
        SameExecutionStays(ps, b, if j < |ps| then j else 0);
      }
      if j < |ps| {
        PairInOrder(front, b, ps, i, j);
      } else {
        LastInOrder(front, b, ps, i);
      }
    }
  }

  /** A result that is added behind the others is the first of its execution. */
  lemma {:induction false} NewIsLast(front: seq<Block>, b: Block, ps: seq<Block>)
    requires AllResults(ps) && Modern(ps) && b.ToolResult? && b.execution.Some? && FirstSame(ps, b).None?
    requires forall x | x in front && x.ToolResult? :: Holds(ps, x.execution)
    ensures !Holds(front, b.execution)
  {
    if Holds(front, b.execution) {
      var x :| x in front && x.ToolResult? && x.execution == b.execution;
      var p :| p in ps && p.ToolResult? && p.execution == x.execution;
      var k :| 0 <= k < |ps| && ps[k] == p;
      assert SameExecution(ps[k], b);
    }
  }

  /** The pending results that no held block settles, in order. */
  ghost function NotHeld(pending: seq<Block>, held: seq<Block>): seq<Block>
  {
    if pending == [] then []
    else (if Holds(held, ExecutionOf(pending[0])) then [] else [pending[0]]) + NotHeld(pending[1..], held)
  }

  lemma {:induction false} NotHeldAppend(xs: seq<Block>, ys: seq<Block>, held: seq<Block>)
    ensures NotHeld(xs + ys, held) == NotHeld(xs, held) + NotHeld(ys, held)
  {
    if xs == [] {
      assert xs + ys == ys;
    } else {
      var rest := xs[1..];
      var first := if Holds(held, ExecutionOf(xs[0])) then [] else [xs[0]];
      NotHeldAppend(rest, ys, held);
      NotHeldFirst(xs, held, first);
      assert (xs + ys)[1..] == rest + ys;
      NotHeldFirst(xs + ys, held, first);
      Regrouped(first, NotHeld(rest, held), NotHeld(ys, held));
    }
  }

  lemma {:induction false} Regrouped(a: seq<Block>, b: seq<Block>, c: seq<Block>)
    ensures a + (b + c) == a + b + c
  {
  }

  lemma {:induction false} NotHeldFirst(pending: seq<Block>, held: seq<Block>, first: seq<Block>)
    requires pending != [] && first == if Holds(held, ExecutionOf(pending[0])) then [] else [pending[0]]
    ensures NotHeld(pending, held) == first + NotHeld(pending[1..], held)
  {
  }

  lemma {:induction false} NothingHeld(pending: seq<Block>)
    ensures NotHeld(pending, []) == pending
  {
    if pending != [] {
      NothingHeld(pending[1..]);
      assert pending == [pending[0]] + pending[1..];
    }
  }

  /** A held block that settles nothing of `pending` filters nothing. */
  lemma {:induction false} NotHeldMore(pending: seq<Block>, b: Block, held: seq<Block>)
    requires forall p | p in pending :: !(b.ToolResult? && b.execution == ExecutionOf(p))
    ensures NotHeld(pending, [b] + held) == NotHeld(pending, held)
  {
    if pending != [] {
      assert pending[0] in pending && forall p | p in pending[1..] :: p in pending;
      NotHeldMore(pending[1..], b, held);
      HoldsCons(b, held, ExecutionOf(pending[0]));
    }
  }

  lemma {:induction false} HoldsCons(b: Block, held: seq<Block>, e: Option<string>)
    ensures Holds([b] + held, e) <==> (b.ToolResult? && b.execution == e) || Holds(held, e)
  {
    assert forall x :: x in [b] + held <==> x == b || x in held;
  }

  /** Taking out the one pending result that `b` settles. */
  lemma {:induction false} WithoutSettled(b: Block, pending: seq<Block>, k: nat, held: seq<Block>)
    requires k < |pending| && b.ToolResult? && b.execution == ExecutionOf(pending[k])
    requires forall i | 0 <= i < |pending| && i != k :: ExecutionOf(pending[i]) != b.execution
    ensures NotHeld(Without(pending, k), held) == NotHeld(pending, [b] + held)
  {
    var before, p, after := pending[..k], pending[k], pending[k + 1..];
    assert pending == before + ([p] + after);
    NotHeldAppend(before, after, held);
    NotHeldAppend(before, [p] + after, [b] + held);
    NotHeldMore(before, b, held);
    NotHeldMore(after, b, held);
    HoldsCons(b, held, ExecutionOf(p));
    assert ([p] + after)[1..] == after;
    NotHeldFirst([p] + after, [b] + held, []);
    assert [] + NotHeld(after, [b] + held) == NotHeld(after, [b] + held);
  }

  lemma {:induction false} SettledAway(b: Block, pending: seq<Block>, held: seq<Block>)
    requires AllResults(pending) && Modern(pending) && OnePerExecution(pending)
    requires b.ToolResult? ==> b.execution.Some?
    ensures NotHeld(Settle(b, pending).1, held) == NotHeld(pending, [b] + held)
  {
    var k := Match(b, pending);
    assert forall i | 0 <= i < |pending| :: pending[i] in pending;
    if k.None? {
      assert forall p | p in pending && b.ToolResult? :: !SameExecution(p, b);
      NotHeldMore(pending, b, held);
    } else {
      WithoutSettled(b, pending, k.value, held);
    }
  }

  /** The results that get a message of their own are those no held block settles, in the
      order in which they came in. */
  lemma {:induction false} WalkLeavesInOrder(blocks: seq<Block>, pending: seq<Block>)
    requires AllResults(pending) && Modern(pending) && OnePerExecution(pending) && Modern(blocks)
    ensures Walk(blocks, pending).1 == NotHeld(pending, blocks)
  {
    if blocks == [] {
      NothingHeld(pending);
    } else {
      var b, rest := blocks[0], blocks[1..];
      var left := Settle(b, pending).1;
      assert b in blocks && forall x | x in rest :: x in blocks;
      SettleModern(b, pending);
      WalkLeavesInOrder(rest, left);
      SettledAway(b, pending, rest);
      assert Walk(blocks, pending).1 == Walk(rest, left).1;
      assert blocks == [b] + rest;
    }
  }

  lemma {:induction false} NoneIsAll(blocks: seq<Block>)
    requires forall b | b in blocks :: !b.ToolResult?
    ensures NonResults(blocks) == blocks
  {
    if blocks != [] {
      assert blocks[0] in blocks && forall b | b in blocks[1..] :: b in blocks;
      NoneIsAll(blocks[1..]);
      assert blocks == [blocks[0]] + blocks[1..];
    }
  }

  /** What is added to the history, if anything: the incoming results of executions it does not
      hold, the last of each execution and in order of coming in, and then everything else. */
  lemma {:induction false} AddedMessage(ms: seq<Message>, content: Content)
    requires Modern(Flat(ms)) && Modern(Incoming(content)) && Incoming(content) != []
    ensures var now := AppendUser(ms, content);
      var added := NotHeld(Pending(Incoming(content)), Flat(ms)) + NonResults(Incoming(content));
      |ms| <= |now| && now[|ms|..] == if added == [] then [] else [Message(User, Blocks(added), NO_META)]
  {
    var blocks := Incoming(content);
    PendingIsLast(blocks);
    OthersAreNonResults(blocks);
    WalkHistoryIsFlat(ms, Pending(blocks));
    WalkLeavesInOrder(Flat(ms), Pending(blocks));
    if Pending(blocks) == [] {
      forall b | b in blocks ensures !b.ToolResult? {
        assert b.ToolResult? ==> Holds(Pending(blocks), ExecutionOf(b));
      }
      NoneIsAll(blocks);
      assert [] + blocks == blocks;
    }
  }

  // ---- the replacement rule -----------------------------------------------------------------------------

  predicate Says(b: Block, text: string)
    requires b.ToolResult?
  {
    b.body.Plain? && exists i, j :: 0 <= i <= j <= |b.body.text| && b.body.text[i..j] == text
  }

  lemma {:induction false} ContainsMeans(text: string, needle: string)
    ensures Contains(text, needle) <==> exists i, j :: 0 <= i <= j <= |text| && text[i..j] == needle
  {
    if k :| 0 <= k <= |text| && needle <= text[k..] {
      assert text[k..k + |needle|] == needle;
    }
    if i, j :| 0 <= i <= j <= |text| && text[i..j] == needle {
      assert text[i..][..|needle|] == needle;
    }
  }

  /** A held success stays.  A held error gives way to the last incoming result of its execution
      if that one succeeded, or if the error tells of an interruption. */
  lemma {:induction false} HeldGivesWay(ms: seq<Message>, content: Content, k: nat, j: nat)
    requires Sound(Flat(ms)) && Modern(Incoming(content))
    requires k < |Flat(ms)| && j < |Incoming(content)| && LastOf(Incoming(content), j, Incoming(content)[j])
    requires Flat(ms)[k].ToolResult? && Flat(ms)[k].execution == Incoming(content)[j].execution
    ensures var held, r := Flat(ms)[k], Incoming(content)[j];
      k < |Flat(AppendUser(ms, content))| &&
      Flat(AppendUser(ms, content))[k] ==
        if held.isError && (!r.isError || Says(held, "Operation was interrupted")) then r else held
  {
    var blocks, held := Incoming(content), Flat(ms)[k];
    var r, ps := blocks[j], Pending(blocks);
    AppendUserReconciles(ms, content);
    PendingIsLast(blocks);
    assert r in blocks;
    var p :| p in ps && p.ToolResult? && p.execution == r.execution;
    LastIsUnique(blocks, ps, p, r, j);
    if held.body.Plain? {
      ContainsMeans(held.body.text, "Operation was interrupted");
    }
  }

  lemma {:induction false} LastIsUnique(blocks: seq<Block>, ps: seq<Block>, p: Block, r: Block, j: nat)
    requires p in ps && p.ToolResult? && LastOf(blocks, j, r) && p.execution == r.execution
    requires forall q | q in ps :: exists k :: LastOf(blocks, k, q)
    ensures p == r
  {
    var k: nat :| LastOf(blocks, k, p);
  }

  // ---- the assistant's messages ---------------------------------------------------------------------------

  /** An assistant's message is added as it is, unless it says nothing: then that is recorded. */
  lemma {:induction false} AssistantAppended(ms: seq<Message>, m: Message)
    ensures m.content != Str("") && m.content != Blocks([]) ==> AppendAssistant(ms, m) == ms + [m]
    ensures m.content == Str("") || m.content == Blocks([]) ==>
      AppendAssistant(ms, m) ==
      ms + [Message(m.role, Blocks([Text("[Assistant returned no message content]")]), m.meta)]
  {
  }
}
