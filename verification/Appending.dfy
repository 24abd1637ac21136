/** `Conversation.append_user`: incoming tool results are reconciled with the
    results the history already holds. */
module Appending {
  import opened Options
  import opened Messages

  const INTERRUPTION := "Operation was interrupted"
  const NO_USER_CONTENT := "[User provided no message content]"
  const NO_ASSISTANT_CONTENT := "[Assistant returned no message content]"

  predicate Contains(text: string, needle: string)
  {
    exists k | 0 <= k <= |text| :: needle <= text[k..]
  }

  /** Only an error is ever replaced: by anything if it records an interruption,
      otherwise only by a success. */
  predicate ShouldReplace(held: Block, incoming: Block)
    requires held.ToolResult? && incoming.ToolResult?
  {
    || (held.isError && held.body.Plain? && Contains(held.body.text, INTERRUPTION))
    || (!incoming.isError && held.isError)
  }

  function FirstSame(pending: seq<Block>, b: Block, k: nat := 0): (r: Option<nat>)
    requires k <= |pending|
    ensures r.Some? ==> k <= r.value < |pending| && SameExecution(pending[r.value], b)
    ensures forall j | k <= j < (if r.Some? then r.value else |pending|) :: !SameExecution(pending[j], b)
    decreases |pending| - k
  {
    if k == |pending| then None
    else if SameExecution(pending[k], b) then Some(k)
    else FirstSame(pending, b, k + 1)
  }

  function AddResult(pending: seq<Block>, b: Block): seq<Block>
  {
    var k := FirstSame(pending, b);
    if k.Some? then pending[k.value := b] else pending + [b]
  }

  /** The incoming results, the last one of each execution. */
  function Pending(blocks: seq<Block>): seq<Block>
  {
    if blocks == [] then []
    else
      var b, before := blocks[|blocks| - 1], Pending(blocks[..|blocks| - 1]);
      if b.ToolResult? then AddResult(before, b) else before
  }

  function Others(blocks: seq<Block>): seq<Block>
  {
    if blocks == [] then []
    else
      var b, before := blocks[|blocks| - 1], Others(blocks[..|blocks| - 1]);
      if b.ToolResult? then before else before + [b]
  }

  function Without(pending: seq<Block>, k: nat): seq<Block>
    requires k < |pending|
  {
    pending[..k] + pending[k + 1..]
  }

  function Match(b: Block, pending: seq<Block>): (k: Option<nat>)
    ensures k.Some? ==> b.ToolResult? && k.value < |pending|
  {
    if b.ToolResult? then FirstSame(pending, b) else None
  }

  ghost predicate AllResults(blocks: seq<Block>)
  {
    forall b | b in blocks :: b.ToolResult?
  }

  /** One held block against the pending results: the block to hold from now on,
      and the results still pending. */
  function Settle(b: Block, pending: seq<Block>): (r: (Block, seq<Block>))
    requires AllResults(pending)
    ensures AllResults(r.1)
  {
    var k := Match(b, pending);
    if k.None? then (b, pending)
    else
      var p := pending[k.value];
      (if ShouldReplace(b, p) then p else b, Without(pending, k.value))
  }

  /** Walk held blocks left to right, settling at most one pending result each. */
  function Walk(blocks: seq<Block>, pending: seq<Block>): (r: (seq<Block>, seq<Block>))
    requires AllResults(pending)
    ensures |r.0| == |blocks| && AllResults(r.1)
  {
    if blocks == [] then ([], pending)
    else
      var first := Settle(blocks[0], pending);
      var later := Walk(blocks[1..], first.1);
      ([first.0] + later.0, later.1)
  }

  function WalkHistory(ms: seq<Message>, pending: seq<Block>): (r: (seq<Message>, seq<Block>))
    requires AllResults(pending)
    ensures |r.0| == |ms| && AllResults(r.1)
  {
    if ms == [] then ([], pending)
    else if IsUserBlocks(ms[0]) then
      var w := Walk(BlocksOf(ms[0]), pending);
      var later := WalkHistory(ms[1..], w.1);
      ([ms[0].(content := Blocks(w.0))] + later.0, later.1)
    else
      var later := WalkHistory(ms[1..], pending);
      ([ms[0]] + later.0, later.1)
  }

  function Incoming(content: Content): seq<Block>
  {
    if content.Str? then [Text(content.text)] else content.blocks
  }

  function UserMessage(blocks: seq<Block>): Message
  {
    Message(User, Blocks(blocks), NO_META)
  }

  /** The history after appending a user message. */
  function AppendUser(ms: seq<Message>, content: Content): seq<Message>
  {
    var blocks := Incoming(content);
    PendingAreResults(blocks);
    if Pending(blocks) == [] then ms + [UserMessage(if blocks == [] then [Text(NO_USER_CONTENT)] else blocks)]
    else
      var w := WalkHistory(ms, Pending(blocks));
      var added := w.1 + Others(blocks);
      if added == [] then w.0 else w.0 + [UserMessage(added)]
  }

  function AppendAssistant(ms: seq<Message>, m: Message): seq<Message>
  {
    ms + [if m.content == Str("") || m.content == Blocks([])
          then m.(content := Blocks([Text(NO_ASSISTANT_CONTENT)])) else m]
  }

  lemma {:induction false} PendingAreResults(blocks: seq<Block>)
    ensures AllResults(Pending(blocks))
  {
    if blocks != [] {
      PendingAreResults(blocks[..|blocks| - 1]);
    }
  }

  // ---- at most one result per execution --------------------------------------------

  /** The blocks of all user messages, in order. */
  function Flat(ms: seq<Message>): seq<Block>
  {
    if ms == [] then []
    else if IsUserBlocks(ms[0]) then BlocksOf(ms[0]) + Flat(ms[1..])
    else Flat(ms[1..])
  }

  ghost predicate Modern(blocks: seq<Block>)
  {
    forall b | b in blocks && b.ToolResult? :: b.execution.Some?
  }

  ghost predicate OnePerExecution(blocks: seq<Block>)
  {
    forall i, j | 0 <= i < j < |blocks| && blocks[i].ToolResult? && blocks[j].ToolResult? ::
      blocks[i].execution != blocks[j].execution
  }

  ghost predicate Holds(blocks: seq<Block>, execution: Option<string>)
  {
    exists b :: b in blocks && b.ToolResult? && b.execution == execution
  }

  /** What a held block becomes when `pending` arrives. */
  ghost predicate Settles(held: Block, pending: seq<Block>, now: Block)
  {
    && (!held.ToolResult? || !Holds(pending, held.execution) ==> now == held)
    && forall r | r in pending && r.ToolResult? && held.ToolResult? && r.execution == held.execution ::
         now == if ShouldReplace(held, r) then r else held
  }

  /** Settling a modern block removes the one pending result of its execution. */
  lemma {:induction false} SettleModern(b: Block, pending: seq<Block>)
    requires AllResults(pending) && Modern(pending) && OnePerExecution(pending)
    requires b.ToolResult? ==> b.execution.Some?
    ensures var left := Settle(b, pending).1;
      && Modern(left) && OnePerExecution(left)
      && (forall p :: p in left <==> p in pending && (b.ToolResult? ==> p.execution != b.execution))
    ensures Settles(b, pending, Settle(b, pending).0)
  {
    var k := Match(b, pending);
    assert forall i | 0 <= i < |pending| :: pending[i] in pending;
    if k.Some? {
      MatchIsOnly(pending, k.value);
    }
  }

  lemma {:induction false} MatchIsOnly(pending: seq<Block>, k: nat)
    requires AllResults(pending) && OnePerExecution(pending) && k < |pending|
    ensures forall r | r in pending && r.execution == pending[k].execution :: r == pending[k]
    ensures Holds(pending, pending[k].execution)
  {
    assert pending[k] in pending;
  }

  lemma {:induction false} WalkLeaves(blocks: seq<Block>, pending: seq<Block>)
    requires AllResults(pending) && Modern(pending) && OnePerExecution(pending) && Modern(blocks)
    ensures var left := Walk(blocks, pending).1;
      && Modern(left) && OnePerExecution(left)
      && forall p :: p in left <==> p in pending && !Holds(blocks, p.execution)
  {
    if blocks != [] {
      assert blocks[0] in blocks && forall x | x in blocks[1..] :: x in blocks;
      SettleModern(blocks[0], pending);
      WalkLeaves(blocks[1..], Settle(blocks[0], pending).1);
      forall e: Option<string>
        ensures Holds(blocks, e) <==> (blocks[0].ToolResult? && blocks[0].execution == e) || Holds(blocks[1..], e)
      {
        assert blocks == [blocks[0]] + blocks[1..];
      }
    }
  }

  lemma {:induction false} WalkSettles(blocks: seq<Block>, pending: seq<Block>, k: nat)
    requires AllResults(pending) && Modern(pending) && OnePerExecution(pending)
    requires Modern(blocks) && OnePerExecution(blocks) && k < |blocks|
    ensures Settles(blocks[k], pending, Walk(blocks, pending).0[k])
  {
    assert blocks[0] in blocks;
    SettleModern(blocks[0], pending);
    if k > 0 {
      assert forall x | x in blocks[1..] :: x in blocks;
      assert blocks[k] == blocks[1..][k - 1];
      var left := Settle(blocks[0], pending).1;
      WalkSettles(blocks[1..], left, k - 1);
      SettlesMore(blocks[0], blocks[k], pending, left, Walk(blocks, pending).0[k]);
    }
  }

  lemma {:induction false} SettlesMore(first: Block, held: Block, pending: seq<Block>, left: seq<Block>, now: Block)
    requires AllResults(left) && AllResults(pending)
    requires forall p :: p in left <==> p in pending && (first.ToolResult? ==> p.execution != first.execution)
    requires first.ToolResult? && held.ToolResult? ==> held.execution != first.execution
    requires Settles(held, left, now)
    ensures Settles(held, pending, now)
  {
    if held.ToolResult? && Holds(left, held.execution) {
      var r :| r in left && r.ToolResult? && r.execution == held.execution;
      assert r in pending;
    }
  }

  lemma {:induction false} WalkAppend(xs: seq<Block>, ys: seq<Block>, pending: seq<Block>)
    requires AllResults(pending)
    ensures var w := Walk(xs, pending); var w' := Walk(ys, w.1);
      Walk(xs + ys, pending) == (w.0 + w'.0, w'.1)
  {
    if xs == [] {
      assert xs + ys == ys && [] + Walk(ys, pending).0 == Walk(ys, pending).0;
    } else {
      assert (xs + ys)[1..] == xs[1..] + ys;
      var first := Settle(xs[0], pending);
      WalkAppend(xs[1..], ys, first.1);
      var later := Walk(xs[1..], first.1);
      assert [first.0] + (later.0 + Walk(ys, later.1).0) == ([first.0] + later.0) + Walk(ys, later.1).0;
    }
  }

  /** Walking the messages is walking their blocks in one go. */
  lemma {:induction false} WalkHistoryIsFlat(ms: seq<Message>, pending: seq<Block>)
    requires AllResults(pending)
    ensures var w := WalkHistory(ms, pending); (Flat(w.0), w.1) == Walk(Flat(ms), pending)
  {
    if ms != [] {
      if IsUserBlocks(ms[0]) {
        var w := Walk(BlocksOf(ms[0]), pending);
        WalkAppend(BlocksOf(ms[0]), Flat(ms[1..]), pending);
        WalkHistoryIsFlat(ms[1..], w.1);
        assert WalkHistory(ms, pending).0[1..] == WalkHistory(ms[1..], w.1).0;
      } else {
        assert WalkHistory(ms, pending).0[1..] == WalkHistory(ms[1..], pending).0;
        WalkHistoryIsFlat(ms[1..], pending);
      }
    }
  }

  lemma {:induction false} FlatAppend(ms: seq<Message>, m: Message)
    ensures Flat(ms + [m]) == Flat(ms) + if IsUserBlocks(m) then BlocksOf(m) else []
  {
    if ms == [] {
      assert ms + [m] == [m] && [m][1..] == [];
    } else {
      assert (ms + [m])[1..] == ms[1..] + [m];
      FlatAppend(ms[1..], m);
    }
  }

  /** Deduplication keeps, of each incoming execution, the last result. */
  lemma {:induction false} PendingIsLast(blocks: seq<Block>)
    requires Modern(blocks)
    ensures var ps := Pending(blocks);
      && AllResults(ps) && Modern(ps) && OnePerExecution(ps)
      && (forall b | b in blocks && b.ToolResult? :: Holds(ps, b.execution))
      && forall p | p in ps :: exists k :: LastOf(blocks, k, p)
  {
    if blocks != [] {
      var n := |blocks| - 1;
      var b, front := blocks[n], blocks[..n];
      assert b in blocks && forall x | x in front :: x in blocks;
      PendingIsLast(front);
      PendingStep(front, b);
      assert blocks == front + [b];
    }
  }

  ghost predicate LastOf(blocks: seq<Block>, k: nat, p: Block)
  {
    && p.ToolResult? && k < |blocks| && blocks[k] == p
    && forall j | k < j < |blocks| && blocks[j].ToolResult? :: blocks[j].execution != p.execution
  }

  /** Adding a result replaces the earlier one of its execution. */
  lemma {:induction false} AddModern(ps: seq<Block>, b: Block)
    requires AllResults(ps) && Modern(ps) && OnePerExecution(ps) && b.ToolResult? && b.execution.Some?
    ensures var ps' := AddResult(ps, b);
      && AllResults(ps') && Modern(ps') && OnePerExecution(ps')
      && forall p :: p in ps' <==> p == b || (p in ps && p.execution != b.execution)
  {
    var k, ps' := FirstSame(ps, b), AddResult(ps, b);
    assert forall i | 0 <= i < |ps| :: ps[i] in ps;
    AddHas(ps, b);
  }

  lemma {:induction false} AddHas(ps: seq<Block>, b: Block)
    requires AllResults(ps) && Modern(ps) && OnePerExecution(ps) && b.ToolResult? && b.execution.Some?
    ensures forall p :: p in AddResult(ps, b) <==> p == b || (p in ps && p.ToolResult? && p.execution != b.execution)
  {
    var k, ps' := FirstSame(ps, b), AddResult(ps, b);
    assert forall i | 0 <= i < |ps| :: ps[i] in ps;
    assert ps'[if k.Some? then k.value else |ps|] == b;
    forall p | p in ps && p.execution != b.execution ensures p in ps' {
      var i :| 0 <= i < |ps| && ps[i] == p;
      assert ps'[i] == p;
    }
  }

  lemma {:induction false} PendingStep(front: seq<Block>, b: Block)
    requires Modern(front + [b])
    requires var ps := Pending(front);
      && AllResults(ps) && Modern(ps) && OnePerExecution(ps)
      && (forall x | x in front && x.ToolResult? :: Holds(ps, x.execution))
      && forall p | p in ps :: exists k :: LastOf(front, k, p)
    ensures var ps := Pending(front + [b]);
      && AllResults(ps) && Modern(ps) && OnePerExecution(ps)
      && (forall x | x in front + [b] && x.ToolResult? :: Holds(ps, x.execution))
      && forall p | p in ps :: exists k :: LastOf(front + [b], k, p)
  {
    var blocks, ps := front + [b], Pending(front);
    assert blocks[..|blocks| - 1] == front && b in blocks;
    var ps' := Pending(blocks);
    if b.ToolResult? {
      AddModern(ps, b);
      assert LastOf(blocks, |front|, b);
    }
    forall x | x in blocks && x.ToolResult? ensures Holds(ps', x.execution) {
      if x in front && (b.ToolResult? ==> x.execution != b.execution) {
        var p :| p in ps && p.ToolResult? && p.execution == x.execution;
        assert p in ps';
      }
    }
    forall p | p in ps' ensures exists k :: LastOf(blocks, k, p) {
      if p != b || !b.ToolResult? {
        var k :| LastOf(front, k, p);
        assert LastOf(blocks, k, p);
      }
    }
  }

  lemma {:induction false} OthersAreNotResults(blocks: seq<Block>)
    ensures forall b | b in Others(blocks) :: !b.ToolResult?
  {
    if blocks != [] {
      OthersAreNotResults(blocks[..|blocks| - 1]);
    }
  }

  lemma {:induction false} SettlesKeepsExecution(held: Block, pending: seq<Block>, now: Block)
    requires Settles(held, pending, now)
    ensures held.ToolResult? <==> now.ToolResult?
    ensures held.ToolResult? ==> now.execution == held.execution
    ensures held.ToolResult? && !held.isError ==> now == held
  {
    if held.ToolResult? && Holds(pending, held.execution) {
      var r :| r in pending && r.ToolResult? && r.execution == held.execution;
    }
  }

  ghost predicate Sound(blocks: seq<Block>)
  {
    Modern(blocks) && OnePerExecution(blocks)
  }

  /** `now` extends `held`, each held block settled by the incoming `blocks`, and
      every incoming execution is represented. */
  ghost predicate Reconciled(held: seq<Block>, blocks: seq<Block>, now: seq<Block>)
  {
    && |held| <= |now|
    && (forall k | 0 <= k < |held| :: Settles(held[k], Pending(blocks), now[k]))
    && (forall b | b in blocks && b.ToolResult? :: Holds(now, b.execution))
  }

  lemma {:induction false} SettledAreSound(held: seq<Block>, pending: seq<Block>, now: seq<Block>)
    requires Sound(held) && |now| == |held|
    requires forall k | 0 <= k < |held| :: Settles(held[k], pending, now[k])
    ensures Sound(now)
    ensures forall e :: Holds(now, e) <==> Holds(held, e)
  {
    forall k | 0 <= k < |held|
      ensures held[k].ToolResult? <==> now[k].ToolResult?
      ensures held[k].ToolResult? ==> now[k].execution == held[k].execution
    {
      SettlesKeepsExecution(held[k], pending, now[k]);
    }
    forall e ensures Holds(now, e) <==> Holds(held, e) {
      if k :| 0 <= k < |held| && now[k].ToolResult? && now[k].execution == e {
        assert held[k] in held;
      }
      if k :| 0 <= k < |held| && held[k].ToolResult? && held[k].execution == e {
        assert now[k] in now;
      }
    }
  }

  lemma {:induction false} AppendSound(xs: seq<Block>, ys: seq<Block>)
    requires Sound(xs) && Sound(ys)
    requires forall y | y in ys && y.ToolResult? :: !Holds(xs, y.execution)
    ensures Sound(xs + ys)
    ensures forall e :: Holds(xs + ys, e) <==> Holds(xs, e) || Holds(ys, e)
  {
  }

  /** Appending a user message keeps at most one result per execution, keeps every
      held result in place unless the replacement rule fires, and leaves every
      incoming execution represented. */
  lemma {:induction false} AppendUserReconciles(ms: seq<Message>, content: Content)
    requires Sound(Flat(ms)) && Modern(Incoming(content))
    ensures var now := Flat(AppendUser(ms, content));
      Sound(now) && Reconciled(Flat(ms), Incoming(content), now)
  {
    var blocks, held := Incoming(content), Flat(ms);
    var ps := Pending(blocks);
    PendingIsLast(blocks);
    if ps == [] {
      var added := if blocks == [] then [Text(NO_USER_CONTENT)] else blocks;
      FlatAppend(ms, UserMessage(added));
      AppendSound(held, added);
    } else {
      ReconcileWalk(ms, content);
    }
  }

  lemma {:induction false} ReconcileWalk(ms: seq<Message>, content: Content)
    requires Sound(Flat(ms)) && Modern(Incoming(content)) && Pending(Incoming(content)) != []
    ensures var now := Flat(AppendUser(ms, content));
      Sound(now) && Reconciled(Flat(ms), Incoming(content), now)
  {
    var blocks, held := Incoming(content), Flat(ms);
    var ps := Pending(blocks);
    PendingIsLast(blocks);
    var w := WalkHistory(ms, ps);
    WalkHistoryIsFlat(ms, ps);
    WalkLeaves(held, ps);
    forall k | 0 <= k < |held| ensures Settles(held[k], ps, Flat(w.0)[k]) {
      WalkSettles(held, ps, k);
    }
    SettledAreSound(held, ps, Flat(w.0));
    OthersAreNotResults(blocks);
    var added := w.1 + Others(blocks);
    AppendSound(w.1, Others(blocks));
    AppendSound(Flat(w.0), added);
    FlatAppend(w.0, UserMessage(added));
    assert Flat(w.0) + [] == Flat(w.0);
    AllRepresented(blocks, ps, held, Flat(w.0), w.1, added);
  }

  lemma {:induction false} AllRepresented(blocks: seq<Block>, ps: seq<Block>, held: seq<Block>, settled: seq<Block>,
                                          left: seq<Block>, added: seq<Block>)
    requires AllResults(ps) && left <= added
    requires forall b | b in blocks && b.ToolResult? :: Holds(ps, b.execution)
    requires forall p :: p in left <==> p in ps && p.ToolResult? && !Holds(held, p.execution)
    requires forall e :: Holds(held, e) ==> Holds(settled, e)
    ensures forall b | b in blocks && b.ToolResult? :: Holds(settled + added, b.execution)
  {
    forall b | b in blocks && b.ToolResult? ensures Holds(settled + added, b.execution) {
      var p :| p in ps && p.ToolResult? && p.execution == b.execution;
      if p in left {
        assert p in settled + added;
      } else {
        var h :| h in settled && h.ToolResult? && h.execution == p.execution;
        assert h in settled + added;
      }
    }
  }

  // ---- whole runs ----------------------------------------------------------------------

  datatype Append = FromUser(content: Content) | FromAssistant(message: Message)

  function Appended(ms: seq<Message>, a: Append): seq<Message>
  {
    match a
    case FromUser(content) => AppendUser(ms, content)
    case FromAssistant(message) => AppendAssistant(ms, message)
  }

  function AppendAll(ms: seq<Message>, appends: seq<Append>): seq<Message>
    decreases |appends|
  {
    if appends == [] then ms else AppendAll(Appended(ms, appends[0]), appends[1..])
  }

  ghost predicate ModernAppend(a: Append)
  {
    match a
    case FromUser(content) => Modern(Incoming(content))
    case FromAssistant(message) => message.role.Assistant?
  }

  /** A success at a position stays there; executions are never forgotten. */
  ghost predicate Preserves(held: seq<Block>, now: seq<Block>)
  {
    && |held| <= |now|
    && (forall k | 0 <= k < |held| && held[k].ToolResult? && !held[k].isError :: now[k] == held[k])
    && (forall e :: Holds(held, e) ==> Holds(now, e))
  }

  lemma {:induction false} AppendPreserves(ms: seq<Message>, a: Append)
    requires Sound(Flat(ms)) && ModernAppend(a)
    ensures Sound(Flat(Appended(ms, a))) && Preserves(Flat(ms), Flat(Appended(ms, a)))
  {
    var held, now := Flat(ms), Flat(Appended(ms, a));
    if a.FromUser? {
      AppendUserReconciles(ms, a.content);
      forall k | 0 <= k < |held| && held[k].ToolResult? ensures !held[k].isError ==> now[k] == held[k]
        ensures Holds(now, held[k].execution)
      {
        SettlesKeepsExecution(held[k], Pending(Incoming(a.content)), now[k]);
        assert now[k] in now;
      }
    } else {
      FlatAppend(ms, AppendAssistant(ms, a.message)[|ms|]);
      assert now == held;
    }
  }

  /** Over any run of appends whose results carry execution ids: at most one result
      per execution, no success ever replaced, and every execution that ever came
      in is represented at the end. */
  lemma {:induction false} AppendRunsStaySound(ms: seq<Message>, appends: seq<Append>)
    requires Sound(Flat(ms)) && forall a | a in appends :: ModernAppend(a)
    ensures var now := Flat(AppendAll(ms, appends));
      && Sound(now) && Preserves(Flat(ms), now)
      && forall a, b | a in appends && a.FromUser? && b in Incoming(a.content) && b.ToolResult? ::
           Holds(now, b.execution)
    decreases |appends|
  {
    if appends != [] {
      var a, rest := appends[0], appends[1..];
      var mid := Appended(ms, a);
      assert a in appends && forall x | x in rest :: x in appends;
      AppendPreserves(ms, a);
      AppendRunsStaySound(mid, rest);
      if a.FromUser? {
        AppendUserReconciles(ms, a.content);
      }
      assert appends == [a] + rest;
    }
  }
}
