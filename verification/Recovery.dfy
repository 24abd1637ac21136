/** An interrupted call and its late result: what repair puts in for a missing result, and
    what becomes of it when the result comes in after all. */
module Recovery {
  import opened Options
  import opened Messages
  import opened Repair
  import opened Conservation
  import opened Drains
  import opened Appending

  // ---- the placeholder ------------------------------------------------------------------------

  /** `b` tells that call `c` was interrupted: an error with the interruption text, for this
      very call. */
  predicate Interrupts(b: Block, c: Block)
  {
    && c.ToolCall? && b.ToolResult? && b.isError
    && b.body.Plain? && Contains(b.body.text, INTERRUPTION)
    && b.toolUseId == c.id && b.name == c.name && b.kind == c.kind && b.execution == Some(c.executionId)
  }

  lemma {:induction false} PlaceholderInterrupts(c: Block)
    requires c.ToolCall?
    ensures Interrupts(Placeholder(c), c) && Answers(c, Placeholder(c))
  {
    assert INTERRUPTION <= INTERRUPTED[0..];
  }

  ghost predicate UserBlocksOver(slots: seq<Slot>, vocabulary: set<Block>)
  {
    forall s, b | s in slots && IsUserBlocks(s.msg) && b in BlocksOf(s.msg) :: b in vocabulary
  }

  lemma {:induction false} SearchStays(calls: seq<Block>, found: Found, slots: seq<Slot>, vocabulary: set<Block>)
    requires UserBlocksOver(slots, vocabulary) && forall k | k in found :: found[k] in vocabulary
    ensures var r := Search(calls, found, slots);
      UserBlocksOver(r.1, vocabulary) && forall k | k in r.0 :: r.0[k] in vocabulary
    decreases |slots|
  {
    if slots != [] {
      assert slots[0] in slots && forall s | s in slots[1..] :: s in slots;
      if slots[0].drained || !IsUserBlocks(slots[0].msg) {
        SearchStays(calls, found, slots[1..], vocabulary);
      } else {
        TakeOver(calls, found, BlocksOf(slots[0].msg), vocabulary);
        SearchStays(calls, Take(calls, found, BlocksOf(slots[0].msg)).0, slots[1..], vocabulary);
      }
    }
  }

  lemma {:induction false} ExchangeStays(calls: seq<Block>, rest: seq<Slot>, vocabulary: set<Block>)
    requires UserBlocksOver(rest, vocabulary) && forall c | c in calls :: c.ToolCall?
    ensures var x := Exchange(calls, rest);
      && UserBlocksOver(x.rest, vocabulary)
      && (forall k | k in x.found :: x.found[k] in vocabulary)
      && (forall b | b in Nearby(calls, rest).other :: b in vocabulary)
  {
    var near := Nearby(calls, rest);
    if rest != [] {
      assert rest[0] in rest;
      if IsUserBlocks(rest[0].msg) {
        TakeOver(calls, map[], BlocksOf(rest[0].msg), vocabulary);
      }
    }
    assert UserBlocksOver(near.rest, vocabulary);
    SearchStays(calls, near.found, near.rest, vocabulary);
  }

  /** A result of the reply was found in the history or tells that its call was interrupted. */
  lemma {:induction false} ReplyIsKnown(calls: seq<Block>, rest: seq<Slot>, vocabulary: set<Block>, b: Block)
    requires UserBlocksOver(rest, vocabulary) && forall c | c in calls :: c.ToolCall?
    requires b in BlocksOf(Exchange(calls, rest).reply)
    ensures b in vocabulary || exists c :: c in calls && Interrupts(b, c)
  {
    ExchangeStays(calls, rest, vocabulary);
    var x := Exchange(calls, rest);
    var complete := Complete(calls, x.found);
    if b in complete {
      var k :| 0 <= k < |complete| && complete[k] == b;
      if k !in x.found {
        assert calls[k] in calls;
        PlaceholderInterrupts(calls[k]);
      }
    }
  }

  ghost predicate Known(b: Block, slots: seq<Slot>, vocabulary: set<Block>)
  {
    b in vocabulary || exists s, c :: s in slots && c in Calls(s.msg) && Interrupts(b, c)
  }

  lemma {:induction false} RepairInvents(slots: seq<Slot>, vocabulary: set<Block>, m: Message, b: Block)
    requires UserBlocksOver(slots, vocabulary) && m in RepairSlots(slots) && IsUserBlocks(m) && b in BlocksOf(m)
    ensures Known(b, slots, vocabulary)
    decreases |slots|
  {
    var s, rest := slots[0], slots[1..];
    assert slots == [s] + rest && s in slots;
    if s.drained || !HasCalls(s.msg) {
      if m != s.msg || s.drained {
        RepairInvents(rest, vocabulary, m, b);
      }
    } else {
      var x := Exchange(Calls(s.msg), rest);
      ExchangeStays(Calls(s.msg), rest, vocabulary);
      if m == x.reply {
        ReplyIsKnown(Calls(s.msg), rest, vocabulary, b);
      } else {
        RepairInvents(x.rest, vocabulary, m, b);
        if b !in vocabulary {
          var s', c :| s' in x.rest && c in Calls(s'.msg) && Interrupts(b, c);
          var k :| 0 <= k < |x.rest| && x.rest[k] == s';
          ExchangeLeaves(slots, k);
          assert slots[k + 1] in slots;
        }
      }
    }
  }

  /** Every block of a user message that repair puts out stood in a user message of the
      history, or is an error saying that a call of the history was interrupted. */
  lemma {:induction false} RepairedInventsErrors(ms: seq<Message>, m: Message, b: Block)
    requires m in Repaired(ms) && IsUserBlocks(m) && b in BlocksOf(m)
    ensures b in Flat(ms) || exists n, c :: n in ms && c in Calls(n) && Interrupts(b, c)
  {
    var slots, vocabulary := Undrained(ms), (set x | x in Flat(ms));
    UndrainedOver(ms);
    RepairInvents(slots, vocabulary, m, b);
    if b !in vocabulary {
      var s, c :| s in slots && c in Calls(s.msg) && Interrupts(b, c);
      assert s.msg in ms;
    }
  }

  lemma {:induction false} FlatHas(ms: seq<Message>, m: Message, b: Block)
    requires m in ms && IsUserBlocks(m) && b in BlocksOf(m)
    ensures b in Flat(ms)
  {
    if ms[0] != m {
      FlatHas(ms[1..], m, b);
    }
  }

  // ---- how many results an execution has -------------------------------------------------------------

  /** How many of the blocks are results of execution `e`. */
  ghost function ResultsOf(blocks: seq<Block>, e: string): nat
  {
    if blocks == [] then 0
    else (if blocks[0].ToolResult? && blocks[0].execution == Some(e) then 1 else 0) + ResultsOf(blocks[1..], e)
  }

  /** How many of the calls are of execution `e`. */
  ghost function CallsOf(calls: seq<Block>, e: string): nat
  {
    if calls == [] then 0
    else (if calls[0].ToolCall? && calls[0].executionId == e then 1 else 0) + CallsOf(calls[1..], e)
  }

  lemma {:induction false} ResultsAppend(xs: seq<Block>, ys: seq<Block>, e: string)
    ensures ResultsOf(xs + ys, e) == ResultsOf(xs, e) + ResultsOf(ys, e)
  {
    if xs == [] {
      assert xs + ys == ys;
    } else {
      assert (xs + ys)[1..] == xs[1..] + ys;
      ResultsAppend(xs[1..], ys, e);
    }
  }

  lemma {:induction false} CallsAppend(xs: seq<Block>, ys: seq<Block>, e: string)
    ensures CallsOf(xs + ys, e) == CallsOf(xs, e) + CallsOf(ys, e)
  {
    if xs == [] {
      assert xs + ys == ys;
    } else {
      assert (xs + ys)[1..] == xs[1..] + ys;
      CallsAppend(xs[1..], ys, e);
    }
  }

  /** The history knows execution ids and has no result of execution `e`. */
  ghost predicate Silent(vocabulary: set<Block>, e: string)
  {
    forall b | b in vocabulary && b.ToolResult? :: b.execution.Some? && b.execution != Some(e)
  }

  lemma {:induction false} SilentResults(blocks: seq<Block>, vocabulary: set<Block>, e: string)
    requires Silent(vocabulary, e) && forall b | b in blocks :: b in vocabulary
    ensures ResultsOf(blocks, e) == 0
  {
    if blocks != [] {
      assert blocks[0] in blocks && forall b | b in blocks[1..] :: b in blocks;
      SilentResults(blocks[1..], vocabulary, e);
    }
  }

  lemma {:induction false} CompleteResults(calls: seq<Block>, found: Found, vocabulary: set<Block>, e: string, k: nat)
    requires k <= |calls| && (forall c | c in calls :: c.ToolCall?) && Fits(calls, found) && Silent(vocabulary, e)
    requires forall j | j in found :: found[j] in vocabulary
    ensures ResultsOf(Complete(calls, found, k), e) == CallsOf(calls[k..], e)
    decreases |calls| - k
  {
    if k < |calls| {
      CompleteResults(calls, found, vocabulary, e, k + 1);
      assert calls[k] in calls && calls[k..][1..] == calls[k + 1..];
      var first := if k in found then found[k] else Placeholder(calls[k]);
      FirstResult(first, Complete(calls, found, k + 1), calls[k], e);
    }
  }

  lemma {:induction false} FirstResult(first: Block, later: seq<Block>, c: Block, e: string)
    requires Answers(c, first) && first.execution.Some?
    ensures ResultsOf([first] + later, e) == CallsOf([c], e) + ResultsOf(later, e)
  {
    assert ([first] + later)[1..] == later && [c][1..] == [];
  }

  ghost function CallsAcross(slots: seq<Slot>, e: string): nat
  {
    if slots == [] then 0 else CallsOf(Calls(slots[0].msg), e) + CallsAcross(slots[1..], e)
  }

  lemma {:induction false} SameCallsIn(slots: seq<Slot>, slots': seq<Slot>, e: string)
    requires |slots| == |slots'| && forall k | 0 <= k < |slots| :: Calls(slots[k].msg) == Calls(slots'[k].msg)
    ensures CallsAcross(slots, e) == CallsAcross(slots', e)
  {
    if slots != [] {
      SameCallsIn(slots[1..], slots'[1..], e);
    }
  }

  lemma {:induction false} FlatCons(m: Message, ms: seq<Message>)
    ensures Flat([m] + ms) == (if IsUserBlocks(m) then BlocksOf(m) else []) + Flat(ms)
  {
    assert ([m] + ms)[1..] == ms;
  }

  lemma {:induction false} ExchangeResults(slots: seq<Slot>, vocabulary: set<Block>, e: string)
    requires slots != [] && HasCalls(slots[0].msg)
    requires UserBlocksOver(slots, vocabulary) && Silent(vocabulary, e)
    ensures var calls := Calls(slots[0].msg);
      var x := Exchange(calls, slots[1..]);
      && UserBlocksOver(x.rest, vocabulary)
      && ResultsOf(BlocksOf(x.reply), e) == CallsOf(calls, e)
      && CallsAcross(x.rest, e) == CallsAcross(slots[1..], e)
  {
    var calls, rest := Calls(slots[0].msg), slots[1..];
    assert UserBlocksOver(rest, vocabulary);
    var x, other := Exchange(calls, rest), Nearby(calls, rest).other;
    ExchangeStays(calls, rest, vocabulary);
    ExchangeFits(calls, rest);
    CompleteResults(calls, x.found, vocabulary, e, 0);
    SilentResults(other, vocabulary, e);
    ResultsAppend(Complete(calls, x.found), other, e);
    assert calls[0..] == calls;
    forall k | 0 <= k < |rest| ensures Calls(rest[k].msg) == Calls(x.rest[k].msg) {
      ExchangeLeaves(slots, k);
    }
    SameCallsIn(rest, x.rest, e);
  }

  /** Where the history holds no result of an execution, repair puts in one per call. */
  lemma {:induction false} RepairSlotsResults(slots: seq<Slot>, vocabulary: set<Block>, e: string)
    requires OnlyUserBlocksDrained(slots) && UserBlocksOver(slots, vocabulary) && Silent(vocabulary, e)
    ensures ResultsOf(Flat(RepairSlots(slots)), e) == CallsAcross(slots, e)
    decreases |slots|
  {
    if slots != [] {
      var s, rest := slots[0], slots[1..];
      assert s in slots && forall x | x in rest :: x in slots;
      if s.drained || !HasCalls(s.msg) {
        RepairSlotsResults(rest, vocabulary, e);
        FlatCons(s.msg, RepairSlots(rest));
        if IsUserBlocks(s.msg) {
          SilentResults(BlocksOf(s.msg), vocabulary, e);
          ResultsAppend(BlocksOf(s.msg), Flat(RepairSlots(rest)), e);
        }
      } else {
        var x := Exchange(Calls(s.msg), rest);
        ExchangeResults(slots, vocabulary, e);
        ExchangeKeepsOrder(Calls(s.msg), rest);
        RepairSlotsResults(x.rest, vocabulary, e);
        var later := RepairSlots(x.rest);
        FlatExchange(s.msg, x.reply, later);
        ResultsAppend(BlocksOf(x.reply), Flat(later), e);
      }
    }
  }

  lemma {:induction false} FlatExchange(m: Message, reply: Message, later: seq<Message>)
    requires !IsUserBlocks(m) && IsUserBlocks(reply)
    ensures Flat([m, reply] + later) == BlocksOf(reply) + Flat(later)
  {
    FlatCons(reply, later);
    FlatCons(m, [reply] + later);
    assert [m, reply] + later == [m] + ([reply] + later);
  }

  lemma {:induction false} AcrossSnoc(slots: seq<Slot>, s: Slot, e: string)
    ensures CallsAcross(slots + [s], e) == CallsAcross(slots, e) + CallsOf(Calls(s.msg), e)
  {
    if slots == [] {
      assert slots + [s] == [s] && [s][1..] == [];
    } else {
      assert (slots + [s])[1..] == slots[1..] + [s];
      AcrossSnoc(slots[1..], s, e);
    }
  }

  lemma {:induction false} AcrossIsAll(ms: seq<Message>, e: string)
    ensures CallsAcross(Undrained(ms), e) == CallsOf(AllCalls(ms), e)
    decreases |ms|
  {
    if ms != [] {
      var front, last := ms[..|ms| - 1], ms[|ms| - 1];
      AcrossIsAll(front, e);
      assert Undrained(ms) == Undrained(front) + [Slot(last, false)];
      AcrossSnoc(Undrained(front), Slot(last, false), e);
      CallsAppend(AllCalls(front), Calls(last), e);
    }
  }

  lemma {:induction false} NoResults(blocks: seq<Block>, e: string)
    requires Modern(blocks) && ResultsOf(blocks, e) == 0
    ensures Silent((set b | b in blocks), e)
  {
    if blocks != [] {
      assert blocks == [blocks[0]] + blocks[1..] && blocks[0] in blocks;
      assert forall b | b in blocks[1..] :: b in blocks;
      NoResults(blocks[1..], e);
      assert forall b | b in blocks[1..] :: b in (set x | x in blocks[1..]);
    }
  }

  /** An execution without a result gets exactly as many from repair as it has calls. */
  lemma {:induction false} RepairedAnswersEachCall(ms: seq<Message>, e: string)
    requires Modern(Flat(ms)) && ResultsOf(Flat(ms), e) == 0
    ensures ResultsOf(Flat(Repaired(ms)), e) == CallsOf(AllCalls(ms), e)
  {
    var slots, vocabulary := Undrained(ms), (set x | x in Flat(ms));
    UndrainedOver(ms);
    NoResults(Flat(ms), e);
    RepairSlotsResults(slots, vocabulary, e);
    AcrossIsAll(ms, e);
  }

  lemma {:induction false} UndrainedOver(ms: seq<Message>)
    ensures UserBlocksOver(Undrained(ms), (set b | b in Flat(ms)))
  {
    forall s, x | s in Undrained(ms) && IsUserBlocks(s.msg) && x in BlocksOf(s.msg) ensures x in Flat(ms) {
      assert s.msg in ms;
      FlatHas(ms, s.msg, x);
    }
  }

  // ---- the late result --------------------------------------------------------------------------------

  lemma {:induction false} FlatFrom(ms: seq<Message>, b: Block) returns (m: Message)
    requires b in Flat(ms)
    ensures m in ms && IsUserBlocks(m) && b in BlocksOf(m)
  {
    if IsUserBlocks(ms[0]) && b in BlocksOf(ms[0]) {
      m := ms[0];
    } else {
      m := FlatFrom(ms[1..], b);
    }
  }

  lemma {:induction false} RepairedIsModern(ms: seq<Message>)
    requires Modern(Flat(ms))
    ensures Modern(Flat(Repaired(ms)))
  {
    forall b | b in Flat(Repaired(ms)) && b.ToolResult? ensures b.execution.Some? {
      var m := FlatFrom(Repaired(ms), b);
      RepairedInventsErrors(ms, m, b);
    }
  }

  lemma {:induction false} NothingPending(blocks: seq<Block>)
    ensures Walk(blocks, []) == (blocks, [])
  {
    if blocks != [] {
      NothingPending(blocks[1..]);
      assert blocks == [blocks[0]] + blocks[1..];
    }
  }

  /** Place `k` holds the only result of execution `e`. */
  ghost predicate OnlyAt(blocks: seq<Block>, e: string, k: nat)
  {
    && k < |blocks| && blocks[k].ToolResult? && blocks[k].execution == Some(e)
    && forall j | 0 <= j < |blocks| && j != k :: !(blocks[j].ToolResult? && blocks[j].execution == Some(e))
  }

  lemma {:induction false} NoneOf(blocks: seq<Block>, e: string, j: nat)
    requires ResultsOf(blocks, e) == 0 && j < |blocks|
    ensures !(blocks[j].ToolResult? && blocks[j].execution == Some(e))
  {
    if j > 0 {
      NoneOf(blocks[1..], e, j - 1);
    }
  }

  lemma {:induction false} OnlyOne(blocks: seq<Block>, e: string) returns (k: nat)
    requires ResultsOf(blocks, e) == 1
    ensures OnlyAt(blocks, e, k)
  {
    if blocks[0].ToolResult? && blocks[0].execution == Some(e) {
      k := 0;
      forall j | 0 < j < |blocks| ensures !(blocks[j].ToolResult? && blocks[j].execution == Some(e)) {
        NoneOf(blocks[1..], e, j - 1);
      }
    } else {
      var i := OnlyOne(blocks[1..], e);
      k := i + 1;
      forall j | 0 <= j < |blocks| && j != k ensures !(blocks[j].ToolResult? && blocks[j].execution == Some(e)) {
        if j > 0 {
          assert blocks[j] == blocks[1..][j - 1];
        }
      }
    }
  }

  lemma {:induction false} Unheld(blocks: seq<Block>, e: string, b: Block)
    requires ResultsOf(blocks, e) == 0 && b.ToolResult? && b.execution == Some(e)
    ensures b !in blocks
  {
    forall j: nat | j < |blocks| ensures blocks[j] != b {
      NoneOf(blocks, e, j);
    }
  }

  predicate IsOf(b: Block, e: string)
  {
    b.ToolResult? && b.execution == Some(e)
  }

  /** What one incoming result does to one held block. */
  lemma {:induction false} SettleOne(b: Block, r: Block, e: string)
    requires IsOf(r, e) && (b.ToolResult? ==> b.execution.Some?)
    ensures Settle(b, [r]) == if IsOf(b, e) then (if ShouldReplace(b, r) then r else b, []) else (b, [r])
  {
    if IsOf(b, e) {
      assert FirstSame([r], b) == Some(0) && Without([r], 0) == [];
    }
  }

  lemma {:induction false} OnlyAtRest(blocks: seq<Block>, e: string, k: nat)
    requires OnlyAt(blocks, e, k)
    ensures k > 0 ==> OnlyAt(blocks[1..], e, k - 1) && !IsOf(blocks[0], e)
    ensures k == 0 ==> IsOf(blocks[0], e)
  {
  }

  lemma {:induction false} WalkStep(blocks: seq<Block>, pending: seq<Block>, first: Block, left: seq<Block>,
                                    rest: seq<Block>)
    requires blocks != [] && AllResults(pending) && Settle(blocks[0], pending) == (first, left)
    requires Walk(blocks[1..], left) == (rest, [])
    ensures Walk(blocks, pending) == ([first] + rest, [])
  {
  }

  lemma {:induction false} UpdateRest(blocks: seq<Block>, k: nat, b: Block)
    requires 0 < k < |blocks|
    ensures blocks[k := b] == [blocks[0]] + blocks[1..][k - 1 := b]
  {
  }

  /** A result that comes in meets the one held result of its execution, and no other. */
  lemma {:induction false} WalkMeets(blocks: seq<Block>, r: Block, e: string, k: nat)
    requires Modern(blocks) && IsOf(r, e) && OnlyAt(blocks, e, k)
    ensures Walk(blocks, [r]) == (blocks[k := if ShouldReplace(blocks[k], r) then r else blocks[k]], [])
    decreases k
  {
    var now := if ShouldReplace(blocks[k], r) then r else blocks[k];
    assert blocks[0] in blocks;
    SettleOne(blocks[0], r, e);
    OnlyAtRest(blocks, e, k);
    if k == 0 {
      NothingPending(blocks[1..]);
      WalkStep(blocks, [r], now, [], blocks[1..]);
      assert blocks[0 := now] == [now] + blocks[1..];
    } else {
      WalkMeets(blocks[1..], r, e, k - 1);
      UpdateRest(blocks, k, now);
      WalkStep(blocks, [r], blocks[0], [r], blocks[1..][k - 1 := now]);
    }
  }

  /** Repair leaves one result of the unanswered execution: the notice for its call. */
  lemma {:induction false} NoticePlace(ms: seq<Message>, e: string) returns (k: nat, c: Block)
    requires Modern(Flat(ms)) && ResultsOf(Flat(ms), e) == 0 && CallsOf(AllCalls(ms), e) == 1
    ensures var held := Flat(Repaired(ms)); OnlyAt(held, e, k) && c in AllCalls(ms) && Interrupts(held[k], c)
  {
    var held := Flat(Repaired(ms));
    RepairedAnswersEachCall(ms, e);
    k := OnlyOne(held, e);
    var m := FlatFrom(Repaired(ms), held[k]);
    RepairedInventsErrors(ms, m, held[k]);
    Unheld(Flat(ms), e, held[k]);
    var n :| n in ms && exists c :: c in Calls(n) && Interrupts(held[k], c);
    c :| c in Calls(n) && Interrupts(held[k], c);
    AllCallsHas(ms, c);
  }

  /** The result of an interrupted call, when it comes in after the repair, takes the place
      of the notice and changes nothing else. */
  lemma {:induction false} LateResultReplaces(ms: seq<Message>, r: Block, e: string) returns (k: nat, c: Block)
    requires Modern(Flat(ms)) && ResultsOf(Flat(ms), e) == 0 && CallsOf(AllCalls(ms), e) == 1
    requires r.ToolResult? && r.execution == Some(e)
    ensures var held, now := Flat(Repaired(ms)), Flat(AppendUser(Repaired(ms), Blocks([r])));
      && OnlyAt(held, e, k) && c in AllCalls(ms) && Interrupts(held[k], c)
      && now == held[k := r] && OnlyAt(now, e, k)
  {
    var held := Flat(Repaired(ms));
    k, c := NoticePlace(ms, e);
    RepairedIsModern(ms);
    WalkMeets(held, r, e, k);
    OneIncoming(Repaired(ms), r);
    WalkHistoryIsFlat(Repaired(ms), [r]);
  }

  /** A single result that meets a held one adds no message. */
  lemma {:induction false} OneIncoming(ms: seq<Message>, r: Block)
    requires r.ToolResult?
    ensures AllResults([r]) && var w := WalkHistory(ms, [r]);
      w.1 == [] ==> AppendUser(ms, Blocks([r])) == w.0
  {
    assert [r][..0] == [] && Pending([]) == [] && Others([]) == [];
    assert FirstSame([], r).None? && AddResult([], r) == [] + [r] == [r];
    assert Pending([r]) == AddResult(Pending([r][..0]), r) && Others([r]) == Others([r][..0]);
  }
}
