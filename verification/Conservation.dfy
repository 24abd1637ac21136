/** What `repaired` keeps: message order, and every block exactly once. */
module Conservation {
  import opened Options
  import opened Messages
  import opened Repair

  // ---- messages that never move ------------------------------------------------

  /** Everything except user messages with block content, in order. */
  function Kept(ms: seq<Message>): seq<Message>
  {
    if ms == [] then []
    else (if IsUserBlocks(ms[0]) then [] else [ms[0]]) + Kept(ms[1..])
  }

  function Msgs(slots: seq<Slot>): (ms: seq<Message>)
    ensures |ms| == |slots|
    ensures forall i | 0 <= i < |slots| :: ms[i] == slots[i].msg
  {
    seq(|slots|, i requires 0 <= i < |slots| => slots[i].msg)
  }

  ghost predicate OnlyUserBlocksDrained(slots: seq<Slot>)
  {
    forall s | s in slots && s.drained :: IsUserBlocks(s.msg)
  }

  lemma {:induction false} KeptCons(s: Slot, slots: seq<Slot>)
    ensures Kept(Msgs([s] + slots)) == (if IsUserBlocks(s.msg) then [] else [s.msg]) + Kept(Msgs(slots))
  {
    assert Msgs([s] + slots)[1..] == Msgs(slots);
  }

  lemma {:induction false} SearchKeepsOrder(calls: seq<Block>, found: Found, slots: seq<Slot>)
    requires OnlyUserBlocksDrained(slots)
    ensures var r := Search(calls, found, slots); OnlyUserBlocksDrained(r.1) && Kept(Msgs(r.1)) == Kept(Msgs(slots))
    decreases |slots|
  {
    if slots != [] {
      var skip := slots[0].drained || !IsUserBlocks(slots[0].msg);
      var t := Take(calls, found, BlocksOf(slots[0].msg));
      var f := if skip then found else t.0;
      var head := if skip then slots[0] else Strip(slots[0], t.1);
      SearchKeepsOrder(calls, f, slots[1..]);
      KeptCons(slots[0], slots[1..]);
      KeptCons(head, Search(calls, f, slots[1..]).1);
      assert slots == [slots[0]] + slots[1..];
    }
  }

  lemma {:induction false} KeptExchange(m: Message, reply: Message, ms: seq<Message>)
    requires !IsUserBlocks(m) && IsUserBlocks(reply)
    ensures Kept([m, reply] + ms) == [m] + Kept(ms)
  {
    var out := [m, reply] + ms;
    assert out[1..] == [reply] + ms && out[1..][1..] == ms;
  }

  lemma {:induction false} ExchangeKeepsOrder(calls: seq<Block>, rest: seq<Slot>)
    requires OnlyUserBlocksDrained(rest) && forall c | c in calls :: c.ToolCall?
    ensures var x := Exchange(calls, rest); OnlyUserBlocksDrained(x.rest) && Kept(Msgs(x.rest)) == Kept(Msgs(rest))
  {
    var near := Nearby(calls, rest);
    assert Msgs(near.rest) == Msgs(rest);
    SearchKeepsOrder(calls, near.found, near.rest);
  }

  lemma {:induction false} RepairSlotsKeepsOrder(slots: seq<Slot>)
    requires OnlyUserBlocksDrained(slots)
    ensures Kept(RepairSlots(slots)) == Kept(Msgs(slots))
    decreases |slots|
  {
    if slots == [] {
      return;
    }
    var m, rest := slots[0].msg, slots[1..];
    assert slots == [slots[0]] + rest && slots[0] in slots;
    KeptCons(slots[0], rest);
    if slots[0].drained || !HasCalls(m) {
      RepairSlotsKeepsOrder(rest);
      assert ([m] + RepairSlots(rest))[1..] == RepairSlots(rest);
    } else {
      var x := Exchange(Calls(m), rest);
      ExchangeKeepsOrder(Calls(m), rest);
      RepairSlotsKeepsOrder(x.rest);
      KeptExchange(m, x.reply, RepairSlots(x.rest));
    }
  }

  /** Assistant and system messages, and user messages with plain string content,
      come out unchanged and in their original order. */
  lemma {:induction false} RepairedKeepsOrder(ms: seq<Message>)
    ensures Kept(Repaired(ms)) == Kept(ms)
  {
    RepairSlotsKeepsOrder(Undrained(ms));
    assert Msgs(Undrained(ms)) == ms;
  }

  // ---- blocks --------------------------------------------------------------------

  /** How many times block `b` occurs; every count below is of one fixed block. */
  ghost function In(blocks: seq<Block>, b: Block): nat
  {
    if blocks == [] then 0 else (if blocks[0] == b then 1 else 0) + In(blocks[1..], b)
  }

  lemma {:induction false} InAppend(xs: seq<Block>, ys: seq<Block>, b: Block)
    ensures In(xs + ys, b) == In(xs, b) + In(ys, b)
  {
    if xs == [] {
      assert xs + ys == ys;
    } else {
      assert (xs + ys)[1..] == xs[1..] + ys;
      InAppend(xs[1..], ys, b);
    }
  }

  /** The count is the block's multiplicity. */
  lemma {:induction false} InIsMultiplicity(blocks: seq<Block>, b: Block)
    ensures In(blocks, b) == multiset(blocks)[b]
  {
    if blocks != [] {
      assert blocks == [blocks[0]] + blocks[1..];
      InIsMultiplicity(blocks[1..], b);
    }
  }

  ghost function Copies(ms: seq<Message>, b: Block): nat
  {
    if ms == [] then 0 else In(BlocksOf(ms[0]), b) + Copies(ms[1..], b)
  }

  /** All blocks of a history. */
  ghost function AllBlocks(ms: seq<Message>): seq<Block>
  {
    if ms == [] then [] else BlocksOf(ms[0]) + AllBlocks(ms[1..])
  }

  /** So equal counts of every block are equal multisets of blocks. */
  lemma {:induction false} CopiesIsMultiplicity(ms: seq<Message>, b: Block)
    ensures Copies(ms, b) == multiset(AllBlocks(ms))[b]
  {
    InIsMultiplicity(AllBlocks(ms), b);
    CopiesIsIn(ms, b);
  }

  lemma {:induction false} CopiesIsIn(ms: seq<Message>, b: Block)
    ensures Copies(ms, b) == In(AllBlocks(ms), b)
  {
    if ms != [] {
      CopiesIsIn(ms[1..], b);
      InAppend(BlocksOf(ms[0]), AllBlocks(ms[1..]), b);
    }
  }

  /** Copies in the entries not yet drained. */
  ghost function Live(slots: seq<Slot>, b: Block): nat
  {
    if slots == [] then 0
    else (if slots[0].drained then 0 else In(BlocksOf(slots[0].msg), b)) + Live(slots[1..], b)
  }

  /** Copies among the results found for the calls from `k` on. */
  ghost function Matched(calls: seq<Block>, found: Found, b: Block, k: nat := 0): nat
    requires k <= |calls|
    decreases |calls| - k
  {
    if k == |calls| then 0
    else (if k in found && found[k] == b then 1 else 0) + Matched(calls, found, b, k + 1)
  }

  /** Copies among the placeholders for the calls from `k` on. */
  ghost function Missing(calls: seq<Block>, found: Found, b: Block, k: nat := 0): nat
    requires k <= |calls| && forall c | c in calls :: c.ToolCall?
    decreases |calls| - k
  {
    if k == |calls| then 0
    else (if k !in found && Placeholder(calls[k]) == b then 1 else 0) + Missing(calls, found, b, k + 1)
  }

  /** Copies a whole run adds as placeholders. */
  ghost function Placeholders(slots: seq<Slot>, b: Block): nat
    decreases |slots|
  {
    if slots == [] then 0
    else if slots[0].drained || !HasCalls(slots[0].msg) then Placeholders(slots[1..], b)
    else
      var x := Exchange(Calls(slots[0].msg), slots[1..]);
      Missing(Calls(slots[0].msg), x.found, b) + Placeholders(x.rest, b)
  }

  /** Copies a run makes a second time, because the message next to the calls had
      already been drained by an earlier search. */
  ghost function Reread(slots: seq<Slot>, b: Block): nat
    decreases |slots|
  {
    if slots == [] then 0
    else if slots[0].drained || !HasCalls(slots[0].msg) then Reread(slots[1..], b)
    else
      (if RereadsNext(slots[1..]) then In(BlocksOf(slots[1].msg), b) else 0) +
      Reread(Exchange(Calls(slots[0].msg), slots[1..]).rest, b)
  }

  /** The message after the calls is drained, and is read nonetheless. */
  predicate RereadsNext(rest: seq<Slot>)
  {
    rest != [] && rest[0].drained && IsUserBlocks(rest[0].msg)
  }

  /** Some call-bearing message of the run is followed by a drained message. */
  ghost predicate ReadsDrained(slots: seq<Slot>)
    decreases |slots|
  {
    if slots == [] then false
    else if slots[0].drained || !HasCalls(slots[0].msg) then ReadsDrained(slots[1..])
    else RereadsNext(slots[1..]) || ReadsDrained(Exchange(Calls(slots[0].msg), slots[1..]).rest)
  }

  lemma {:induction false} MatchedUpdate(calls: seq<Block>, found: Found, j: nat, r: Block, b: Block, k: nat)
    requires k <= |calls| && j < |calls| && j !in found
    ensures Matched(calls, found[j := r], b, k) == Matched(calls, found, b, k) + if k <= j && r == b then 1 else 0
    decreases |calls| - k
  {
    if k < |calls| {
      MatchedUpdate(calls, found, j, r, b, k + 1);
    }
  }

  lemma {:induction false} TakeConserves(calls: seq<Block>, found: Found, blocks: seq<Block>, b: Block)
    ensures var r := Take(calls, found, blocks);
      In(blocks, b) + Matched(calls, found, b) == In(r.1, b) + Matched(calls, r.0, b)
    decreases |blocks|
  {
    if blocks != [] {
      var k := UnmatchedCall(calls, found, blocks[0]);
      if k.Some? {
        MatchedUpdate(calls, found, k.value, blocks[0], b, 0);
        TakeConserves(calls, found[k.value := blocks[0]], blocks[1..], b);
      } else {
        InAppend([blocks[0]], Take(calls, found, blocks[1..]).1, b);
        TakeConserves(calls, found, blocks[1..], b);
      }
    }
  }

  lemma {:induction false} SearchConserves(calls: seq<Block>, found: Found, slots: seq<Slot>, b: Block)
    ensures var r := Search(calls, found, slots);
      Live(slots, b) + Matched(calls, found, b) == Live(r.1, b) + Matched(calls, r.0, b)
    decreases |slots|
  {
    if slots != [] {
      var s, later := slots[0], slots[1..];
      if s.drained || !IsUserBlocks(s.msg) {
        SearchConserves(calls, found, later, b);
        LiveCons(s, Search(calls, found, later).1, b);
      } else {
        var t := Take(calls, found, BlocksOf(s.msg));
        TakeConserves(calls, found, BlocksOf(s.msg), b);
        SearchConserves(calls, t.0, later, b);
        LiveCons(Strip(s, t.1), Search(calls, t.0, later).1, b);
      }
    }
  }

  lemma {:induction false} LiveCons(s: Slot, slots: seq<Slot>, b: Block)
    ensures Live([s] + slots, b) == (if s.drained then 0 else In(BlocksOf(s.msg), b)) + Live(slots, b)
  {
    assert ([s] + slots)[1..] == slots;
  }

  lemma {:induction false} CompleteSplits(calls: seq<Block>, found: Found, b: Block, k: nat)
    requires k <= |calls| && forall c | c in calls :: c.ToolCall?
    ensures In(Complete(calls, found, k), b) == Matched(calls, found, b, k) + Missing(calls, found, b, k)
    decreases |calls| - k
  {
    if k < |calls| {
      InAppend([if k in found then found[k] else Placeholder(calls[k])], Complete(calls, found, k + 1), b);
      CompleteSplits(calls, found, b, k + 1);
    }
  }

  lemma {:induction false} NothingMatched(calls: seq<Block>, b: Block, k: nat)
    requires k <= |calls|
    ensures Matched(calls, map[], b, k) == 0
    decreases |calls| - k
  {
    if k < |calls| {
      NothingMatched(calls, b, k + 1);
    }
  }

  lemma {:induction false} NearbyConserves(calls: seq<Block>, rest: seq<Slot>, b: Block)
    ensures var near := Nearby(calls, rest);
      Matched(calls, near.found, b) + In(near.other, b) + Live(near.rest, b) ==
      Live(rest, b) + if RereadsNext(rest) then In(BlocksOf(rest[0].msg), b) else 0
  {
    NothingMatched(calls, b, 0);
    if rest != [] {
      TakeConserves(calls, map[], BlocksOf(rest[0].msg), b);
      assert Nearby(calls, rest).rest[1..] == rest[1..];
    }
  }

  lemma {:induction false} ExchangeConserves(calls: seq<Block>, rest: seq<Slot>, b: Block)
    requires forall c | c in calls :: c.ToolCall?
    ensures var x := Exchange(calls, rest);
      In(BlocksOf(x.reply), b) + Live(x.rest, b) ==
      Live(rest, b) + Missing(calls, x.found, b) + if RereadsNext(rest) then In(BlocksOf(rest[0].msg), b) else 0
  {
    var near := Nearby(calls, rest);
    var x := Exchange(calls, rest);
    NearbyConserves(calls, rest, b);
    SearchConserves(calls, near.found, near.rest, b);
    CompleteSplits(calls, x.found, b, 0);
    InAppend(Complete(calls, x.found), near.other, b);
  }

  lemma {:induction false} CopiesCons(m: Message, ms: seq<Message>, b: Block)
    ensures Copies([m] + ms, b) == In(BlocksOf(m), b) + Copies(ms, b)
  {
    assert ([m] + ms)[1..] == ms;
  }

  lemma {:induction false} RepairSlotsAccounts(slots: seq<Slot>, b: Block)
    ensures Copies(RepairSlots(slots), b) == Live(slots, b) + Placeholders(slots, b) + Reread(slots, b)
    decreases |slots|
  {
    if slots == [] {
      return;
    }
    var m, rest := slots[0].msg, slots[1..];
    if slots[0].drained || !HasCalls(m) {
      RepairSlotsAccounts(rest, b);
      CopiesCons(m, RepairSlots(rest), b);
    } else {
      var x := Exchange(Calls(m), rest);
      var later := RepairSlots(x.rest);
      ExchangeConserves(Calls(m), rest, b);
      RepairSlotsAccounts(x.rest, b);
      CopiesCons(x.reply, later, b);
      CopiesCons(m, [x.reply] + later, b);
      assert RepairSlots(slots) == [m] + ([x.reply] + later);
    }
  }

  lemma {:induction false} LiveUndrained(ms: seq<Message>, b: Block)
    ensures Live(Undrained(ms), b) == Copies(ms, b)
  {
    if ms != [] {
      assert Undrained(ms)[1..] == Undrained(ms[1..]);
      LiveUndrained(ms[1..], b);
    }
  }

  /** The full account of a repair, for every history and every block: each input
      copy once, the placeholders, and a second copy of what was read from drained
      messages. */
  lemma {:induction false} RepairedAccounts(ms: seq<Message>, b: Block)
    ensures Copies(Repaired(ms), b) == Copies(ms, b) + Placeholders(Undrained(ms), b) + Reread(Undrained(ms), b)
  {
    RepairSlotsAccounts(Undrained(ms), b);
    LiveUndrained(ms, b);
  }

  // ---- exactly when nothing is copied twice ----------------------------------------

  /** Drained messages are not empty; the entry just consumed is exempt. */
  ghost predicate DrainedHoldBlocks(slots: seq<Slot>)
  {
    forall k | 0 < k < |slots| && slots[k].drained :: BlocksOf(slots[k].msg) != []
  }

  lemma {:induction false} SearchDrainsBlocks(calls: seq<Block>, found: Found, slots: seq<Slot>, k: nat)
    requires k < |slots| && (slots[k].drained ==> BlocksOf(slots[k].msg) != [])
    ensures var s := Search(calls, found, slots).1[k]; s.drained ==> BlocksOf(s.msg) != []
    decreases |slots|
  {
    if k > 0 {
      var t := Take(calls, found, BlocksOf(slots[0].msg));
      var f := if slots[0].drained || !IsUserBlocks(slots[0].msg) then found else t.0;
      SearchDrainsBlocks(calls, f, slots[1..], k - 1);
    }
  }

  lemma {:induction false} ExchangeDrainsBlocks(slots: seq<Slot>)
    requires slots != [] && HasCalls(slots[0].msg) && DrainedHoldBlocks(slots)
    ensures DrainedHoldBlocks(Exchange(Calls(slots[0].msg), slots[1..]).rest)
  {
    var calls, rest := Calls(slots[0].msg), slots[1..];
    var near := Nearby(calls, rest);
    var x := Exchange(calls, rest);
    forall k | 0 < k < |x.rest| && x.rest[k].drained ensures BlocksOf(x.rest[k].msg) != [] {
      assert near.rest[k] == slots[k + 1];
      SearchDrainsBlocks(calls, near.found, near.rest, k);
    }
  }

  lemma {:induction false} DrainedReadCopies(slots: seq<Slot>) returns (b: Block)
    requires DrainedHoldBlocks(slots) && ReadsDrained(slots)
    ensures Reread(slots, b) > 0
    decreases |slots|
  {
    if slots[0].drained || !HasCalls(slots[0].msg) {
      b := DrainedReadCopies(slots[1..]);
    } else if RereadsNext(slots[1..]) {
      b := BlocksOf(slots[1].msg)[0];
      assert In(BlocksOf(slots[1].msg), b) > 0;
    } else {
      ExchangeDrainsBlocks(slots);
      b := DrainedReadCopies(Exchange(Calls(slots[0].msg), slots[1..]).rest);
    }
  }

  lemma {:induction false} NoDrainedReadNoCopy(slots: seq<Slot>, b: Block)
    requires !ReadsDrained(slots)
    ensures Reread(slots, b) == 0
    decreases |slots|
  {
    if slots == [] {
    } else if slots[0].drained || !HasCalls(slots[0].msg) {
      NoDrainedReadNoCopy(slots[1..], b);
    } else {
      NoDrainedReadNoCopy(Exchange(Calls(slots[0].msg), slots[1..]).rest, b);
    }
  }

  /** Every input block comes out exactly as often as it went in, placeholders
      apart. */
  ghost predicate Conserved(ms: seq<Message>)
  {
    forall b :: Copies(Repaired(ms), b) == Copies(ms, b) + Placeholders(Undrained(ms), b)
  }

  /** That holds exactly when no call-bearing message is followed by a message that
      an earlier search has drained. */
  lemma {:induction false} ConservedIffNoDrainedRead(ms: seq<Message>)
    ensures Conserved(ms) <==> !ReadsDrained(Undrained(ms))
  {
    var slots := Undrained(ms);
    if ReadsDrained(slots) {
      var b := DrainedReadCopies(slots);
      RepairedAccounts(ms, b);
    } else {
      forall b ensures Copies(Repaired(ms), b) == Copies(ms, b) + Placeholders(slots, b) {
        RepairedAccounts(ms, b);
        NoDrainedReadNoCopy(slots, b);
      }
    }
  }

  /** Message `i` carries calls and a user message with blocks comes right after. */
  predicate AfterCalls(ms: seq<Message>, i: nat)
  {
    i + 1 < |ms| && HasCalls(ms[i]) && IsUserBlocks(ms[i + 1])
  }

  /** Block `b` of that user message answers no call of an earlier message. */
  ghost predicate Shield(ms: seq<Message>, i: nat, b: Block)
  {
    AfterCalls(ms, i) && b in BlocksOf(ms[i + 1]) && forall j, c | 0 <= j < i && c in Calls(ms[j]) :: !Answers(c, b)
  }

  ghost predicate HasShield(ms: seq<Message>, i: nat)
  {
    exists b :: Shield(ms, i, b)
  }

  /** Message `i` carries calls and the user message right after it holds blocks, all
      of which answer calls of earlier messages. */
  ghost predicate Exposed(ms: seq<Message>, i: nat)
  {
    AfterCalls(ms, i) && BlocksOf(ms[i + 1]) != [] && !HasShield(ms, i)
  }

  /** No user message right after a call-bearing one is like that. */
  ghost predicate Shielded(ms: seq<Message>)
  {
    forall i: nat :: !Exposed(ms, i)
  }

  lemma {:induction false} TakeLeaves(calls: seq<Block>, found: Found, blocks: seq<Block>, b: Block)
    requires b in blocks && forall c | c in calls :: !Answers(c, b)
    ensures b in Take(calls, found, blocks).1
    decreases |blocks|
  {
    var k := UnmatchedCall(calls, found, blocks[0]);
    if blocks[0] != b {
      TakeLeaves(calls, if k.Some? then found[k.value := blocks[0]] else found, blocks[1..], b);
    }
  }

  lemma {:induction false} SearchLeaves(calls: seq<Block>, found: Found, slots: seq<Slot>, k: nat)
    requires k < |slots|
    ensures var s := Search(calls, found, slots).1[k];
      && s.msg.role == slots[k].msg.role
      && IsUserBlocks(s.msg) == IsUserBlocks(slots[k].msg)
      && (!IsUserBlocks(slots[k].msg) || BlocksOf(slots[k].msg) == [] ==> s == slots[k])
      && forall b | IsUserBlocks(slots[k].msg) && !slots[k].drained && b in BlocksOf(slots[k].msg) &&
                    (forall c | c in calls :: !Answers(c, b)) :: !s.drained && b in BlocksOf(s.msg)
    decreases |slots|
  {
    var t := Take(calls, found, BlocksOf(slots[0].msg));
    if k > 0 {
      var f := if slots[0].drained || !IsUserBlocks(slots[0].msg) then found else t.0;
      SearchLeaves(calls, f, slots[1..], k - 1);
    } else {
      forall b | b in BlocksOf(slots[0].msg) && (forall c | c in calls :: !Answers(c, b)) ensures b in t.1 {
        TakeLeaves(calls, found, BlocksOf(slots[0].msg), b);
      }
    }
  }

  lemma {:induction false} ShieldedTail(ms: seq<Message>)
    requires ms != [] && Shielded(ms)
    ensures Shielded(ms[1..])
  {
    var tail := ms[1..];
    forall i: nat | AfterCalls(tail, i) && BlocksOf(tail[i + 1]) != [] ensures HasShield(tail, i) {
      assert AfterCalls(ms, i + 1) && !Exposed(ms, i + 1);
      var b :| Shield(ms, i + 1, b);
      forall j, c | 0 <= j < i && c in Calls(tail[j]) ensures !Answers(c, b) {
        assert tail[j] == ms[j + 1];
      }
      assert Shield(tail, i, b);
    }
  }

  /** No user message right after a call-bearing one is drained. */
  ghost predicate FreshReplies(slots: seq<Slot>)
  {
    forall i: nat | AfterCalls(Msgs(slots), i) :: !slots[i + 1].drained
  }

  /** An exchange moves no calls and keeps what answers none of its own calls. */
  lemma {:induction false} ExchangeLeaves(slots: seq<Slot>, k: nat)
    requires k + 1 < |slots| && HasCalls(slots[0].msg)
    ensures var s, s' := slots[k + 1], Exchange(Calls(slots[0].msg), slots[1..]).rest[k];
      && Calls(s'.msg) == Calls(s.msg)
      && IsUserBlocks(s'.msg) == IsUserBlocks(s.msg)
      && (k > 0 && IsUserBlocks(s.msg) && BlocksOf(s.msg) == [] ==> s' == s)
      && forall b | k > 0 && IsUserBlocks(s.msg) && !s.drained && b in BlocksOf(s.msg) &&
                    (forall c | c in Calls(slots[0].msg) :: !Answers(c, b)) :: !s'.drained && b in BlocksOf(s'.msg)
  {
    var calls := Calls(slots[0].msg);
    var near := Nearby(calls, slots[1..]);
    SearchLeaves(calls, near.found, near.rest, k);
  }

  lemma {:induction false} ShieldSurvives(slots: seq<Slot>, i: nat)
    requires slots != [] && HasCalls(slots[0].msg) && Shielded(Msgs(slots)) && FreshReplies(slots)
    requires AfterCalls(Msgs(Exchange(Calls(slots[0].msg), slots[1..]).rest), i)
    requires BlocksOf(slots[i + 2].msg) != []
    ensures var x := Exchange(Calls(slots[0].msg), slots[1..]);
      !x.rest[i + 1].drained && HasShield(Msgs(x.rest), i)
  {
    var x := Exchange(Calls(slots[0].msg), slots[1..]);
    var before, after := Msgs(slots), Msgs(x.rest);
    ExchangeLeaves(slots, i);
    ExchangeLeaves(slots, i + 1);
    assert AfterCalls(before, i + 1) && !Exposed(before, i + 1);
    var b :| Shield(before, i + 1, b);
    assert forall c | c in Calls(before[0]) :: !Answers(c, b);
    forall j, c | 0 <= j < i && c in Calls(after[j]) ensures !Answers(c, b) {
      ExchangeLeaves(slots, j);
      assert Calls(after[j]) == Calls(before[j + 1]);
    }
    assert Shield(after, i, b);
  }

  lemma {:induction false} ExchangeKeepsShield(slots: seq<Slot>)
    requires slots != [] && HasCalls(slots[0].msg) && Shielded(Msgs(slots)) && FreshReplies(slots)
    ensures var x := Exchange(Calls(slots[0].msg), slots[1..]); Shielded(Msgs(x.rest)) && FreshReplies(x.rest)
  {
    var x := Exchange(Calls(slots[0].msg), slots[1..]);
    forall i: nat | AfterCalls(Msgs(x.rest), i) ensures !x.rest[i + 1].drained && !Exposed(Msgs(x.rest), i) {
      ExchangeLeaves(slots, i);
      ExchangeLeaves(slots, i + 1);
      if BlocksOf(slots[i + 2].msg) != [] {
        ShieldSurvives(slots, i);
      } else {
        assert AfterCalls(Msgs(slots), i + 1);
      }
    }
  }

  lemma {:induction false} ShieldedNeverReadsDrained(slots: seq<Slot>)
    requires Shielded(Msgs(slots)) && FreshReplies(slots)
    ensures !ReadsDrained(slots)
    decreases |slots|
  {
    if slots == [] {
    } else if slots[0].drained || !HasCalls(slots[0].msg) {
      ShieldedTail(Msgs(slots));
      var tail := Msgs(slots[1..]);
      assert Msgs(slots)[1..] == tail;
      forall i: nat | AfterCalls(tail, i) ensures !slots[1..][i + 1].drained {
        assert AfterCalls(Msgs(slots), i + 1);
      }
      ShieldedNeverReadsDrained(slots[1..]);
    } else {
      assert RereadsNext(slots[1..]) ==> AfterCalls(Msgs(slots), 0);
      ExchangeKeepsShield(slots);
      ShieldedNeverReadsDrained(Exchange(Calls(slots[0].msg), slots[1..]).rest);
    }
  }

  /** A condition on the input alone: if every user message right after a
      call-bearing one is empty or holds a block that answers no earlier call, then the
      output holds every input block exactly once, plus placeholders. */
  lemma {:induction false} ShieldedHistoryIsConserved(ms: seq<Message>)
    requires Shielded(ms)
    ensures Conserved(ms)
  {
    assert Msgs(Undrained(ms)) == ms;
    ShieldedNeverReadsDrained(Undrained(ms));
    ConservedIffNoDrainedRead(ms);
  }

  lemma {:induction false} SearchDrainsLoneResult(c: Block, r: Block, skipped: Slot, u: Slot)
    requires Answers(c, r) && !IsUserBlocks(skipped.msg)
    requires IsUserBlocks(u.msg) && BlocksOf(u.msg) == [r] && !u.drained
    ensures Search([c], map[], [skipped, u]).1 == [skipped, u.(drained := true)]
  {
    assert [skipped, u][1..] == [u] && [u][1..] == [];
    assert UnmatchedCall([c], map[], r) == Some(0);
    assert Take([c], map[], [r]) == Take([c], map[0 := r], []);
    assert Search([c], map[], [u]).1 == [Strip(u, [])] + Search([c], map[0 := r], []).1;
  }

  /** Two assistant turns in a row and one result, for the first of them: the search
      for the first call drains the result message, and the second turn reads it
      again.  The result comes out twice. */
  lemma {:induction false} DrainedResultAppearsTwice(a1: Message, a2: Message, u: Message, c: Block, r: Block)
    requires Calls(a1) == [c] && HasCalls(a2) && IsUserBlocks(u) && BlocksOf(u) == [r] && Answers(c, r)
    ensures Copies(Repaired([a1, a2, u]), r) > Copies([a1, a2, u], r)
  {
    var ms := [a1, a2, u];
    var slots := Undrained(ms);
    assert slots[1..] == [Slot(a2, false), Slot(u, false)];
    SearchDrainsLoneResult(c, r, Slot(a2, false), Slot(u, false));
    var x := Exchange([c], slots[1..]);
    assert x.rest == [Slot(a2, false), Slot(u, true)] && RereadsNext(x.rest[1..]);
    assert Reread(slots, r) == 0 + Reread(x.rest, r);
    assert In([r], r) == 1;
    RepairedAccounts(ms, r);
  }

  // ---- a placeholder is a last resort ------------------------------------------------

  lemma {:induction false} TakeExhausts(calls: seq<Block>, found: Found, blocks: seq<Block>, k: nat)
    requires k < |calls| && k !in Take(calls, found, blocks).0
    ensures forall b | b in Take(calls, found, blocks).1 :: !Answers(calls[k], b)
    decreases |blocks|
  {
    if blocks != [] {
      var j := UnmatchedCall(calls, found, blocks[0]);
      TakeExhausts(calls, if j.Some? then found[j.value := blocks[0]] else found, blocks[1..], k);
    }
  }

  lemma {:induction false} SearchExhausts(calls: seq<Block>, found: Found, slots: seq<Slot>, k: nat)
    requires k < |calls| && k !in Search(calls, found, slots).0
    ensures forall s, b | s in Search(calls, found, slots).1 && !s.drained && IsUserBlocks(s.msg) &&
                          b in BlocksOf(s.msg) :: !Answers(calls[k], b)
    decreases |slots|
  {
    if slots != [] {
      var t := Take(calls, found, BlocksOf(slots[0].msg));
      if slots[0].drained || !IsUserBlocks(slots[0].msg) {
        SearchExhausts(calls, found, slots[1..], k);
      } else {
        SearchExhausts(calls, t.0, slots[1..], k);
        TakeExhausts(calls, found, BlocksOf(slots[0].msg), k);
      }
    }
  }

  /** A call gets a placeholder only if nothing left in the conversation answers it:
      neither the rest of the reply nor any later user message. */
  lemma {:induction false} PlaceholderIsLastResort(calls: seq<Block>, rest: seq<Slot>, k: nat)
    requires forall c | c in calls :: c.ToolCall?
    requires k < |calls| && k !in Exchange(calls, rest).found
    ensures BlocksOf(Exchange(calls, rest).reply)[k] == Placeholder(calls[k])
    ensures forall b | b in BlocksOf(Exchange(calls, rest).reply)[|calls|..] :: !Answers(calls[k], b)
    ensures forall s, b | s in Exchange(calls, rest).rest && !s.drained && IsUserBlocks(s.msg) &&
                          b in BlocksOf(s.msg) :: !Answers(calls[k], b)
  {
    var near := Nearby(calls, rest);
    SearchExhausts(calls, near.found, near.rest, k);
    if rest != [] && IsUserBlocks(rest[0].msg) {
      TakeExhausts(calls, map[], BlocksOf(rest[0].msg), k);
    }
    var x := Exchange(calls, rest);
    assert BlocksOf(x.reply)[|calls|..] == near.other;
  }
}
