/** `Conversation.repaired`: reunite displaced tool results with their calls. */
module Repair {
  import opened Options
  import opened Messages

  const INTERRUPTED := "Operation was interrupted. Please retry if needed."

  /** One entry of the list being repaired.  A drained entry is skipped in the
      output, yet its message stays readable at its old position. */
  datatype Slot = Slot(msg: Message, drained: bool)

  /** Result found for each call, by call index. */
  type Found = map<nat, Block>

  function Undrained(ms: seq<Message>): (slots: seq<Slot>)
    ensures |slots| == |ms|
    ensures forall i | 0 <= i < |ms| :: slots[i] == Slot(ms[i], false)
  {
    seq(|ms|, i requires 0 <= i < |ms| => Slot(ms[i], false))
  }

  function UnmatchedCall(calls: seq<Block>, found: Found, b: Block, k: nat := 0): (r: Option<nat>)
    requires k <= |calls|
    ensures r.Some? ==> k <= r.value < |calls| && r.value !in found && Answers(calls[r.value], b)
    ensures forall j | k <= j < (if r.Some? then r.value else |calls|) :: j in found || !Answers(calls[j], b)
    decreases |calls| - k
  {
    if k == |calls| then None
    else if k !in found && Answers(calls[k], b) then Some(k)
    else UnmatchedCall(calls, found, b, k + 1)
  }

  /** Match `blocks` left to right; returns the matches and the blocks left over. */
  function Take(calls: seq<Block>, found: Found, blocks: seq<Block>): (r: (Found, seq<Block>))
    ensures found.Keys <= r.0.Keys
    ensures |r.1| <= |blocks|
    ensures |r.1| == |blocks| ==> r == (found, blocks)
    decreases |blocks|
  {
    if blocks == [] then (found, [])
    else
      var k := UnmatchedCall(calls, found, blocks[0]);
      if k.Some? then Take(calls, found[k.value := blocks[0]], blocks[1..])
      else
        var r := Take(calls, found, blocks[1..]);
        assert blocks == [blocks[0]] + blocks[1..];
        (r.0, [blocks[0]] + r.1)
  }

  /** A message whose results were taken keeps its other blocks, or is drained. */
  function Strip(s: Slot, left: seq<Block>): Slot
    requires IsUserBlocks(s.msg)
  {
    if |left| == |BlocksOf(s.msg)| then s
    else if left != [] then Slot(s.msg.(content := Blocks(left)), s.drained)
    else s.(drained := true)
  }

  function Search(calls: seq<Block>, found: Found, slots: seq<Slot>): (r: (Found, seq<Slot>))
    ensures |r.1| == |slots|
    ensures found.Keys <= r.0.Keys
    decreases |slots|
  {
    if slots == [] then (found, [])
    else if slots[0].drained || !IsUserBlocks(slots[0].msg) then
      var r := Search(calls, found, slots[1..]);
      (r.0, [slots[0]] + r.1)
    else
      var t := Take(calls, found, BlocksOf(slots[0].msg));
      var r := Search(calls, t.0, slots[1..]);
      (r.0, [Strip(slots[0], t.1)] + r.1)
  }

  function Placeholder(call: Block): Block
    requires call.ToolCall?
  {
    ToolResult(call.id, call.name, Plain(INTERRUPTED), true, Some(call.executionId), call.kind)
  }

  /** One result per call from call `k` on, a placeholder where none was found. */
  function Complete(calls: seq<Block>, found: Found, k: nat := 0): (rs: seq<Block>)
    requires k <= |calls| && forall c | c in calls :: c.ToolCall?
    ensures |rs| == |calls| - k
    ensures forall j | k <= j < |calls| :: rs[j - k] == if j in found then found[j] else Placeholder(calls[j])
    decreases |calls| - k
  {
    if k == |calls| then []
    else [if k in found then found[k] else Placeholder(calls[k])] + Complete(calls, found, k + 1)
  }

  /** What the message right after the calls contributes. */
  datatype Near = Near(found: Found, other: seq<Block>, rest: seq<Slot>, meta: Meta)

  function Nearby(calls: seq<Block>, rest: seq<Slot>): (n: Near)
    ensures |n.rest| == |rest|
  {
    if rest != [] && IsUserBlocks(rest[0].msg) then
      var t := Take(calls, map[], BlocksOf(rest[0].msg));
      Near(t.0, t.1, rest[0 := rest[0].(drained := true)], rest[0].msg.meta)
    else
      Near(map[], [], rest, if rest != [] && rest[0].msg.role.User? then rest[0].msg.meta else NO_META)
  }

  datatype Exchanged = Exchanged(found: Found, reply: Message, rest: seq<Slot>)

  function Exchange(calls: seq<Block>, rest: seq<Slot>): (x: Exchanged)
    requires forall c | c in calls :: c.ToolCall?
    ensures |x.rest| == |rest|
  {
    var near := Nearby(calls, rest);
    var far := Search(calls, near.found, near.rest);
    Exchanged(far.0, Message(User, Blocks(Complete(calls, far.0) + near.other), near.meta), far.1)
  }

  function RepairSlots(slots: seq<Slot>): seq<Message>
    decreases |slots|
  {
    if slots == [] then []
    else if slots[0].drained then RepairSlots(slots[1..])
    else if !HasCalls(slots[0].msg) then [slots[0].msg] + RepairSlots(slots[1..])
    else
      var x := Exchange(Calls(slots[0].msg), slots[1..]);
      [slots[0].msg, x.reply] + RepairSlots(x.rest)
  }

  /** The repaired history. */
  function Repaired(ms: seq<Message>): seq<Message>
  {
    RepairSlots(Undrained(ms))
  }

  // ---- every match answers its call ------------------------------------------

  ghost predicate Fits(calls: seq<Block>, found: Found)
  {
    forall k | k in found :: k < |calls| && Answers(calls[k], found[k])
  }

  lemma {:induction false} TakeFits(calls: seq<Block>, found: Found, blocks: seq<Block>)
    requires Fits(calls, found)
    ensures Fits(calls, Take(calls, found, blocks).0)
    decreases |blocks|
  {
    if blocks != [] {
      var k := UnmatchedCall(calls, found, blocks[0]);
      TakeFits(calls, if k.Some? then found[k.value := blocks[0]] else found, blocks[1..]);
    }
  }

  lemma {:induction false} SearchFits(calls: seq<Block>, found: Found, slots: seq<Slot>)
    requires Fits(calls, found)
    ensures Fits(calls, Search(calls, found, slots).0)
    decreases |slots|
  {
    if slots != [] {
      if slots[0].drained || !IsUserBlocks(slots[0].msg) {
        SearchFits(calls, found, slots[1..]);
      } else {
        TakeFits(calls, found, BlocksOf(slots[0].msg));
        SearchFits(calls, Take(calls, found, BlocksOf(slots[0].msg)).0, slots[1..]);
      }
    }
  }

  lemma {:induction false} ExchangeFits(calls: seq<Block>, rest: seq<Slot>)
    requires forall c | c in calls :: c.ToolCall?
    ensures Fits(calls, Exchange(calls, rest).found)
    ensures AnswersInOrder(calls, Exchange(calls, rest).reply)
  {
    var near := Nearby(calls, rest);
    if rest != [] {
      TakeFits(calls, map[], BlocksOf(rest[0].msg));
    }
    SearchFits(calls, near.found, near.rest);
    var x := Exchange(calls, rest);
    var complete := Complete(calls, x.found);
    assert BlocksOf(x.reply) == complete + near.other;
    forall k | 0 <= k < |calls| ensures Answers(calls[k], BlocksOf(x.reply)[k]) {
      assert BlocksOf(x.reply)[k] == complete[k] && calls[k] in calls;
    }
  }

  lemma {:induction false} PairedCons(m: Message, ms: seq<Message>)
    requires PairedInOrder(ms)
    requires HasCalls(m) ==> ms != [] && AnswersInOrder(Calls(m), ms[0])
    ensures PairedInOrder([m] + ms)
  {
    var all := [m] + ms;
    forall i | 0 <= i < |all| && HasCalls(all[i])
      ensures i + 1 < |all| && AnswersInOrder(Calls(all[i]), all[i + 1])
    {
      if i > 0 {
        assert all[i] == ms[i - 1];
        assert HasCalls(ms[i - 1]);
      }
    }
  }

  lemma {:induction false} PairedExchange(m: Message, reply: Message, ms: seq<Message>)
    requires PairedInOrder(ms) && AnswersInOrder(Calls(m), reply)
    ensures PairedInOrder([m, reply] + ms)
  {
    PairedCons(reply, ms);
    PairedCons(m, [reply] + ms);
    assert [m, reply] + ms == [m] + ([reply] + ms);
  }

  /** Every output is paired: each call-bearing assistant message is directly
      followed by a user message that opens with one result per call, in order. */
  lemma {:induction false} RepairSlotsPairs(slots: seq<Slot>)
    ensures PairedInOrder(RepairSlots(slots))
    decreases |slots|
  {
    if slots == [] {
    } else if slots[0].drained {
      RepairSlotsPairs(slots[1..]);
    } else if !HasCalls(slots[0].msg) {
      RepairSlotsPairs(slots[1..]);
      PairedCons(slots[0].msg, RepairSlots(slots[1..]));
    } else {
      var x := Exchange(Calls(slots[0].msg), slots[1..]);
      ExchangeFits(Calls(slots[0].msg), slots[1..]);
      RepairSlotsPairs(x.rest);
      PairedExchange(slots[0].msg, x.reply, RepairSlots(x.rest));
    }
  }

  lemma {:induction false} RepairedIsPaired(ms: seq<Message>)
    ensures PairedInOrder(Repaired(ms))
  {
    RepairSlotsPairs(Undrained(ms));
  }

  // ---- prefix stability --------------------------------------------------------

  lemma {:induction false} TakeWhenFull(calls: seq<Block>, found: Found, blocks: seq<Block>)
    requires forall k | 0 <= k < |calls| :: k in found
    ensures Take(calls, found, blocks) == (found, blocks)
  {
    if blocks != [] {
      TakeWhenFull(calls, found, blocks[1..]);
    }
  }

  /** Once every call has its result the search changes nothing, so guarding it is
      an optimisation and no more. */
  lemma {:induction false} SearchWhenFull(calls: seq<Block>, found: Found, slots: seq<Slot>)
    requires forall k | 0 <= k < |calls| :: k in found
    ensures Search(calls, found, slots) == (found, slots)
  {
    if slots != [] {
      TakeWhenFull(calls, found, BlocksOf(slots[0].msg));
      assert slots == [slots[0]] + slots[1..];
      SearchWhenFull(calls, found, slots[1..]);
    }
  }

  lemma {:induction false} TakeInOrder(calls: seq<Block>, found: Found, m: Message, k: nat)
    requires AnswersInOrder(calls, m) && k <= |calls|
    requires forall j :: j in found <==> 0 <= j < k
    requires forall j | 0 <= j < k :: found[j] == BlocksOf(m)[j]
    ensures var r := Take(calls, found, BlocksOf(m)[k..]);
      && r.1 == BlocksOf(m)[|calls|..]
      && forall j | 0 <= j < |calls| :: j in r.0 && r.0[j] == BlocksOf(m)[j]
    decreases |calls| - k
  {
    var rest := BlocksOf(m)[k..];
    if k == |calls| {
      TakeWhenFull(calls, found, rest);
    } else {
      assert rest[0] == BlocksOf(m)[k] && rest[1..] == BlocksOf(m)[k + 1..];
      assert UnmatchedCall(calls, found, rest[0]) == Some(k);
      TakeInOrder(calls, found[k := rest[0]], m, k + 1);
    }
  }

  lemma {:induction false} ExchangeInOrder(calls: seq<Block>, rest: seq<Slot>)
    requires rest != [] && AnswersInOrder(calls, rest[0].msg)
    requires forall c | c in calls :: c.ToolCall?
    ensures Exchange(calls, rest).reply == rest[0].msg
    ensures Exchange(calls, rest).rest == rest[0 := rest[0].(drained := true)]
  {
    var u := rest[0].msg;
    TakeInOrder(calls, map[], u, 0);
    assert BlocksOf(u)[0..] == BlocksOf(u);
    var near := Nearby(calls, rest);
    SearchWhenFull(calls, near.found, near.rest);
    assert Complete(calls, near.found) + near.other == BlocksOf(u);
  }

  lemma {:induction false} PairedTail(ms: seq<Message>, n: nat)
    requires PairedInOrder(ms) && n <= |ms|
    ensures PairedInOrder(ms[n..])
  {
    forall i | 0 <= i < |ms[n..]| && HasCalls(ms[n..][i])
      ensures i + 1 < |ms[n..]| && AnswersInOrder(Calls(ms[n..][i]), ms[n..][i + 1])
    {
      assert ms[n..][i] == ms[n + i];
    }
  }

  lemma {:induction false} UndrainedTail(ms: seq<Message>, n: nat)
    requires n <= |ms|
    ensures Undrained(ms)[n..] == Undrained(ms[n..])
  {
  }

  lemma {:induction false} StableMessage(ms: seq<Message>)
    requires ms != [] && !HasCalls(ms[0])
    ensures Repaired(ms) == [ms[0]] + Repaired(ms[1..])
  {
    UndrainedTail(ms, 1);
  }

  lemma {:induction false} StableExchange(ms: seq<Message>)
    requires |ms| > 1 && HasCalls(ms[0]) && AnswersInOrder(Calls(ms[0]), ms[1])
    ensures Repaired(ms) == [ms[0], ms[1]] + Repaired(ms[2..])
  {
    var slots := Undrained(ms);
    var x := Exchange(Calls(ms[0]), slots[1..]);
    ExchangeInOrder(Calls(ms[0]), slots[1..]);
    assert x.rest[1..] == slots[2..];
    UndrainedTail(ms, 2);
    assert RepairSlots(x.rest) == RepairSlots(slots[2..]);
  }

  /** An already paired prefix passes through unchanged and shields what follows
      it: repairing `p + ms` repairs `ms` alone. */
  lemma {:induction false} PairedPrefixIsStable(p: seq<Message>, ms: seq<Message>)
    requires PairedInOrder(p)
    ensures Repaired(p + ms) == p + Repaired(ms)
  {
    if p == [] {
      assert p + ms == ms;
    } else if !HasCalls(p[0]) {
      StableFirst(p, ms);
      PairedTail(p, 1);
      PairedPrefixIsStable(p[1..], ms);
      Headed(p, 1, Repaired(ms));
      assert p[..1] == [p[0]];
    } else {
      assert |p| > 1 && AnswersInOrder(Calls(p[0]), p[1]);
      StableFirstTwo(p, ms);
      PairedTail(p, 2);
      PairedPrefixIsStable(p[2..], ms);
      Headed(p, 2, Repaired(ms));
      assert p[..2] == [p[0], p[1]];
    }
  }

  lemma {:induction false} Headed(p: seq<Message>, n: nat, r: seq<Message>)
    requires n <= |p|
    ensures p[..n] + (p[n..] + r) == p + r
  {
    assert p == p[..n] + p[n..];
  }

  lemma {:induction false} StableFirst(p: seq<Message>, ms: seq<Message>)
    requires p != [] && !HasCalls(p[0])
    ensures Repaired(p + ms) == [p[0]] + Repaired(p[1..] + ms)
  {
    assert (p + ms)[0] == p[0] && (p + ms)[1..] == p[1..] + ms;
    StableMessage(p + ms);
  }

  lemma {:induction false} StableFirstTwo(p: seq<Message>, ms: seq<Message>)
    requires |p| > 1 && HasCalls(p[0]) && AnswersInOrder(Calls(p[0]), p[1])
    ensures Repaired(p + ms) == [p[0], p[1]] + Repaired(p[2..] + ms)
  {
    assert (p + ms)[0] == p[0] && (p + ms)[1] == p[1] && (p + ms)[2..] == p[2..] + ms;
    StableExchange(p + ms);
  }

  lemma {:induction false} RepairedIsIdempotent(ms: seq<Message>)
    ensures Repaired(Repaired(ms)) == Repaired(ms)
  {
    var r := Repaired(ms);
    RepairedIsPaired(ms);
    PairedPrefixIsStable(r, []);
    assert r + [] == r;
  }

  // ---- validity ----------------------------------------------------------------

  ghost predicate Over(ms: seq<Message>, vocabulary: set<Block>)
  {
    forall m, b | m in ms && b in BlocksOf(m) :: b in vocabulary
  }

  ghost predicate SlotsOver(slots: seq<Slot>, vocabulary: set<Block>)
  {
    forall s, b | s in slots && b in BlocksOf(s.msg) :: b in vocabulary
  }

  /** A result that answers a call also carries that call's provider id. */
  ghost predicate Correlated(vocabulary: set<Block>)
  {
    forall c, r | c in vocabulary && r in vocabulary && Answers(c, r) :: r.toolUseId == c.id
  }

  lemma {:induction false} TakeOver(calls: seq<Block>, found: Found, blocks: seq<Block>, vocabulary: set<Block>)
    requires forall b | b in blocks :: b in vocabulary
    requires forall k | k in found :: found[k] in vocabulary
    ensures var r := Take(calls, found, blocks);
      (forall b | b in r.1 :: b in vocabulary) && (forall k | k in r.0 :: r.0[k] in vocabulary)
    decreases |blocks|
  {
    if blocks != [] {
      var k := UnmatchedCall(calls, found, blocks[0]);
      TakeOver(calls, if k.Some? then found[k.value := blocks[0]] else found, blocks[1..], vocabulary);
    }
  }

  lemma {:induction false} SearchOver(calls: seq<Block>, found: Found, slots: seq<Slot>, vocabulary: set<Block>)
    requires SlotsOver(slots, vocabulary)
    requires forall k | k in found :: found[k] in vocabulary
    ensures var r := Search(calls, found, slots);
      SlotsOver(r.1, vocabulary) && (forall k | k in r.0 :: r.0[k] in vocabulary)
    decreases |slots|
  {
    if slots != [] {
      var blocks := BlocksOf(slots[0].msg);
      assert slots[0] in slots;
      if slots[0].drained || !IsUserBlocks(slots[0].msg) {
        SearchOver(calls, found, slots[1..], vocabulary);
      } else {
        TakeOver(calls, found, blocks, vocabulary);
        SearchOver(calls, Take(calls, found, blocks).0, slots[1..], vocabulary);
      }
    }
  }

  lemma {:induction false} ExchangeCovers(calls: seq<Block>, rest: seq<Slot>, vocabulary: set<Block>)
    requires Correlated(vocabulary) && SlotsOver(rest, vocabulary)
    requires forall c | c in calls :: c.ToolCall? && c in vocabulary
    ensures var x := Exchange(calls, rest); SlotsOver(x.rest, vocabulary) && ResultsCover(calls, BlocksOf(x.reply))
  {
    var near := Nearby(calls, rest);
    if rest != [] {
      assert rest[0] in rest;
      TakeOver(calls, map[], BlocksOf(rest[0].msg), vocabulary);
    }
    SearchOver(calls, near.found, near.rest, vocabulary);
    var x := Exchange(calls, rest);
    ExchangeFits(calls, rest);
    forall c | c in calls
      ensures exists r :: r in BlocksOf(x.reply) && r.ToolResult? && r.toolUseId == ProviderId(c)
    {
      var k :| 0 <= k < |calls| && calls[k] == c;
      assert BlocksOf(x.reply)[k] == Complete(calls, x.found)[k];
      assert BlocksOf(x.reply)[k] in BlocksOf(x.reply);
    }
  }

  lemma {:induction false} ValidExchange(m: Message, reply: Message, ms: seq<Message>)
    requires ValidForProvider(ms) && !HasCalls(reply)
    requires IsUserBlocks(reply) && ResultsCover(Calls(m), BlocksOf(reply))
    ensures ValidForProvider([m, reply] + ms)
  {
    ValidCons(reply, ms);
    ValidCons(m, [reply] + ms);
    assert [m, reply] + ms == [m] + ([reply] + ms);
  }

  lemma {:induction false} SlotsOverHead(slots: seq<Slot>, vocabulary: set<Block>)
    requires slots != [] && SlotsOver(slots, vocabulary)
    ensures SlotsOver(slots[1..], vocabulary)
    ensures forall c | c in Calls(slots[0].msg) :: c.ToolCall? && c in vocabulary
  {
    assert slots[0] in slots;
    CallsInMembers(BlocksOf(slots[0].msg));
    forall s, b | s in slots[1..] && b in BlocksOf(s.msg) ensures b in vocabulary {
      assert s in slots;
    }
  }

  lemma {:induction false} RepairSlotsValid(slots: seq<Slot>, vocabulary: set<Block>)
    requires Correlated(vocabulary) && SlotsOver(slots, vocabulary)
    ensures ValidForProvider(RepairSlots(slots))
    decreases |slots|
  {
    if slots == [] {
      return;
    }
    SlotsOverHead(slots, vocabulary);
    var m := slots[0].msg;
    if slots[0].drained || !HasCalls(m) {
      RepairSlotsValid(slots[1..], vocabulary);
      if !HasCalls(m) {
        ValidCons(m, RepairSlots(slots[1..]));
      }
    } else {
      var x := Exchange(Calls(m), slots[1..]);
      ExchangeCovers(Calls(m), slots[1..], vocabulary);
      RepairSlotsValid(x.rest, vocabulary);
      var later := RepairSlots(x.rest);
      ValidExchange(m, x.reply, later);
    }
  }

  lemma {:induction false} RepairedIsValid(ms: seq<Message>, vocabulary: set<Block>)
    requires Correlated(vocabulary) && Over(ms, vocabulary)
    ensures ValidForProvider(Repaired(ms))
  {
    forall s, b | s in Undrained(ms) && b in BlocksOf(s.msg) ensures b in vocabulary {
      assert s.msg in ms;
    }
    RepairSlotsValid(Undrained(ms), vocabulary);
  }

  function Pair(c: Block, r: Block): seq<Message>
  {
    [Message(Assistant, Blocks([c]), NO_META), Message(User, Blocks([r]), NO_META)]
  }

  /** A single answered call whose result has another provider id comes back as it
      was, and the provider check refuses it. */
  lemma {:induction false} UncorrelatedPairStaysInvalid(c: Block, r: Block)
    requires Answers(c, r) && r.toolUseId != c.id
    ensures !ValidForProvider(Repaired(Pair(c, r)))
  {
    var p := Pair(c, r);
    assert CallsIn([c]) == [c] + CallsIn([]);
    assert Calls(p[0]) == [c] && !HasCalls(p[1]);
    PairedPrefixIsStable(p, []);
    assert p + [] == p && Repaired([]) == [];
    assert BlocksOf(p[1]) == [r] && c in Calls(p[0]);
    assert !ResultsCover(Calls(p[0]), BlocksOf(p[1]));
  }

  /** Exactly when repairing yields a valid history: over the histories built from
      a set of blocks, always if and only if that set is correlated. */
  lemma {:induction false} AlwaysValidIffCorrelated(vocabulary: set<Block>)
    ensures (forall ms | Over(ms, vocabulary) :: ValidForProvider(Repaired(ms))) <==> Correlated(vocabulary)
  {
    if Correlated(vocabulary) {
      forall ms | Over(ms, vocabulary) ensures ValidForProvider(Repaired(ms)) {
        RepairedIsValid(ms, vocabulary);
      }
    } else {
      var c, r :| c in vocabulary && r in vocabulary && Answers(c, r) && r.toolUseId != c.id;
      UncorrelatedPairStaysInvalid(c, r);
      assert Over(Pair(c, r), vocabulary);
    }
  }
}
