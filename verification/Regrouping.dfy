/** The whole repaired history, read off the history it came from: every call is answered
    on the spot by the block it owns, and everything else stays where it was. */
module Regrouping {
  import opened Options
  import opened Messages
  import opened Repair
  import opened Conservation
  import opened Drains
  import opened Landings

  // ---- what goes where ---------------------------------------------------------------------------

  /** Block `b` is the result of call `k` of message `i`: it comes in later, answers the call,
      and answers no call before it. */
  ghost predicate Owns(ms: seq<Message>, i: nat, k: nat, b: Block)
  {
    && i < |ms| && k < |Calls(ms[i])| && Answers(Calls(ms[i])[k], b)
    && !Answered(AllCalls(ms[..i]), b) && !Answered(Calls(ms[i])[..k], b)
    && exists j :: i < j < |ms| && IsUserBlocks(ms[j]) && b in BlocksOf(ms[j])
  }

  /** What is put in for a call without a result. */
  function Notice(c: Block): Block
    requires c.ToolCall?
  {
    ToolResult(c.id, c.name, Plain("Operation was interrupted. Please retry if needed."), true, Some(c.executionId),
               c.kind)
  }

  /** What is left of message `j` once the calls before it have their results. */
  ghost function Left(ms: seq<Message>, j: nat): seq<Block>
  {
    if j < |ms| && IsUserBlocks(ms[j]) then Unanswering(AllCalls(ms[..j]), BlocksOf(ms[j])) else []
  }

  /** One result per call, in call order. */
  ghost predicate Results(ms: seq<Message>, i: nat, rs: seq<Block>)
    requires i < |ms|
  {
    && |rs| == |Calls(ms[i])|
    && forall k: nat | k < |rs| ::
         Owns(ms, i, k, rs[k]) || (rs[k] == Notice(Calls(ms[i])[k]) && forall b :: !Owns(ms, i, k, b))
  }

  /** The reply to the calls of message `i`: their results, then what is left of the message
      that came next, with the metadata of that message if it was the user's. */
  ghost predicate Replies(ms: seq<Message>, i: nat, reply: Message)
    requires i < |ms|
  {
    && reply.role.User? && reply.content.Blocks?
    && reply.meta == (if i + 1 < |ms| && ms[i + 1].role.User? then ms[i + 1].meta else Meta("", ""))
    && exists rs :: Results(ms, i, rs) && reply.content.blocks == rs + Left(ms, i + 1)
  }

  /** `out` is what messages `n` on become. */
  ghost predicate Regroups(ms: seq<Message>, n: nat, out: seq<Message>)
    requires n <= |ms|
    decreases |ms| - n
  {
    if n == |ms| then out == []
    else if Merges(ms, n) then Regroups(ms, n + 1, out)
    else if HasCalls(ms[n]) then
      |out| >= 2 && out[0] == ms[n] && Replies(ms, n, out[1]) && Regroups(ms, n + 1, out[2..])
    else
      |out| >= 1 && out[0] == (if IsUserBlocks(ms[n]) then ms[n].(content := Blocks(Left(ms, n))) else ms[n]) &&
      Regroups(ms, n + 1, out[1..])
  }

  // ---- which call a block goes to ---------------------------------------------------------------

  ghost predicate FirstOf(calls: seq<Block>, b: Block, k: nat)
  {
    k < |calls| && Answers(calls[k], b) && forall j | 0 <= j < k :: !Answers(calls[j], b)
  }

  /** The matches grow by exactly those of `blocks`, each block going to the first call it
      answers. */
  ghost predicate Assigns(calls: seq<Block>, found: Found, found': Found, blocks: seq<Block>)
  {
    && (forall k | k in found :: k in found' && found'[k] == found[k])
    && (forall k | k in found' && k !in found :: FirstOf(calls, found'[k], k) && found'[k] in blocks)
    && (forall b, k | b in blocks && FirstOf(calls, b, k) :: k in found' && found'[k] == b)
  }

  lemma {:induction false} AssignsTwice(calls: seq<Block>, f: Found, g: Found, h: Found, xs: seq<Block>, ys: seq<Block>)
    requires Assigns(calls, f, g, xs) && Assigns(calls, g, h, ys)
    ensures Assigns(calls, f, h, xs + ys)
  {
    forall b, k | b in xs + ys && FirstOf(calls, b, k) ensures k in h && h[k] == b {
      if b in xs {
        assert k in g && g[k] == b;
      }
    }
    forall k | k in h && k !in f ensures FirstOf(calls, h[k], k) && h[k] in xs + ys {
      if k in g {
        assert h[k] == g[k] && g[k] in xs;
      }
    }
  }

  /** While matched calls have no further answers, a block goes to the first call it answers. */
  lemma {:induction false} GoesToFirst(calls: seq<Block>, found: Found, blocks: seq<Block>, later: seq<Slot>)
    requires blocks != [] && Spent(calls, found, blocks, later)
    ensures var k := UnmatchedCall(calls, found, blocks[0]);
      if k.Some? then FirstOf(calls, blocks[0], k.value) else forall j: nat :: !FirstOf(calls, blocks[0], j)
  {
    var k := UnmatchedCall(calls, found, blocks[0]);
    forall j: nat | j < |calls| && Answers(calls[j], blocks[0]) ensures j !in found {
      assert Hits(blocks, calls[j]) > 0;
    }
  }

  lemma {:induction false} TakeAssigns(calls: seq<Block>, found: Found, blocks: seq<Block>, later: seq<Slot>)
    requires Scarce(calls, blocks, later) && Spent(calls, found, blocks, later)
    ensures Assigns(calls, found, Take(calls, found, blocks).0, blocks)
    decreases |blocks|
  {
    if blocks != [] {
      var k := UnmatchedCall(calls, found, blocks[0]);
      var found' := if k.Some? then found[k.value := blocks[0]] else found;
      GoesToFirst(calls, found, blocks, later);
      assert Assigns(calls, found, found', [blocks[0]]) by {
        forall j | FirstOf(calls, blocks[0], j) ensures j in found' && found'[j] == blocks[0] {
          OneFirst(calls, blocks[0], j, k);
        }
      }
      SpentOn(calls, found, blocks, later, k);
      TakeAssigns(calls, found', blocks[1..], later);
      AssignsTwice(calls, found, found', Take(calls, found, blocks).0, [blocks[0]], blocks[1..]);
      assert blocks == [blocks[0]] + blocks[1..];
    }
  }

  lemma {:induction false} OneFirst(calls: seq<Block>, b: Block, j: nat, k: Option<nat>)
    requires FirstOf(calls, b, j)
    requires if k.Some? then FirstOf(calls, b, k.value) else forall i: nat :: !FirstOf(calls, b, i)
    ensures k == Some(j)
  {
  }

  lemma {:induction false} SpentOn(calls: seq<Block>, found: Found, blocks: seq<Block>, later: seq<Slot>,
                                   k: Option<nat>)
    requires blocks != [] && Scarce(calls, blocks, later) && Spent(calls, found, blocks, later)
    requires k.Some? ==> k.value < |calls| && Answers(calls[k.value], blocks[0])
    ensures Scarce(calls, blocks[1..], later)
    ensures Spent(calls, if k.Some? then found[k.value := blocks[0]] else found, blocks[1..], later)
  {
    var found' := if k.Some? then found[k.value := blocks[0]] else found;
    forall j | j in found' ensures j < |calls| && Hits(blocks[1..], calls[j]) + LiveHits(later, calls[j]) == 0 {
      assert calls[j] in calls;
    }
  }

  /** The blocks a search reads. */
  ghost function LiveBlocks(slots: seq<Slot>): seq<Block>
  {
    if slots == [] then []
    else
      (if slots[0].drained || !IsUserBlocks(slots[0].msg) then [] else BlocksOf(slots[0].msg)) +
      LiveBlocks(slots[1..])
  }

  lemma {:induction false} SearchAssigns(calls: seq<Block>, found: Found, slots: seq<Slot>)
    requires Scarce(calls, [], slots) && Spent(calls, found, [], slots)
    ensures Assigns(calls, found, Search(calls, found, slots).0, LiveBlocks(slots))
    decreases |slots|
  {
    if slots != [] {
      var s, later := slots[0], slots[1..];
      if s.drained || !IsUserBlocks(s.msg) {
        SearchAssigns(calls, found, later);
        assert [] + LiveBlocks(later) == LiveBlocks(later);
      } else {
        var t := Take(calls, found, BlocksOf(s.msg));
        TakeAssigns(calls, found, BlocksOf(s.msg), later);
        TakeFilters(calls, found, BlocksOf(s.msg), later);
        SearchAssigns(calls, t.0, later);
        AssignsTwice(calls, found, t.0, Search(calls, t.0, later).0, BlocksOf(s.msg), LiveBlocks(later));
      }
    }
  }

  /** An exchange gives each call the block that comes in for it first, and leaves of the next
      message what answers none of the calls. */
  lemma {:induction false} ExchangeAssigns(calls: seq<Block>, rest: seq<Slot>)
    requires (forall c | c in calls :: c.ToolCall?) && Scarce(calls, NextBlocks(rest), Later(rest))
    ensures Assigns(calls, map[], Exchange(calls, rest).found, NextBlocks(rest) + LiveBlocks(Later(rest)))
    ensures Nearby(calls, rest).other == Unanswering(calls, NextBlocks(rest))
  {
    var near := Nearby(calls, rest);
    TakeFilters(calls, map[], NextBlocks(rest), Later(rest));
    TakeAssigns(calls, map[], NextBlocks(rest), Later(rest));
    if rest != [] {
      assert near.rest[1..] == Later(rest);
      SearchAssigns(calls, near.found, near.rest);
      assert LiveBlocks(near.rest) == LiveBlocks(Later(rest));
      AssignsTwice(calls, map[], near.found, Exchange(calls, rest).found, NextBlocks(rest), LiveBlocks(Later(rest)));
    }
  }

  // ---- following the run ---------------------------------------------------------------------------------

  /** Entry `s` offers block `b` to a search. */
  predicate Offers(s: Slot, b: Block)
  {
    IsUserBlocks(s.msg) && !s.drained && b in BlocksOf(s.msg)
  }

  lemma {:induction false} UnansweringHas(calls: seq<Block>, blocks: seq<Block>, b: Block)
    ensures b in Unanswering(calls, blocks) <==> b in blocks && !Answered(calls, b)
  {
    if blocks != [] {
      UnansweringHas(calls, blocks[1..], b);
      assert blocks == [blocks[0]] + blocks[1..];
    }
  }

  lemma {:induction false} OffersIff(s: Slot, calls: seq<Block>, m: Message, b: Block)
    requires Became(s, calls, m)
    ensures Offers(s, b) <==> IsUserBlocks(m) && b in BlocksOf(m) && !Answered(calls, b)
  {
    UnansweringHas(calls, BlocksOf(m), b);
  }

  lemma {:induction false} LiveBlocksOffered(slots: seq<Slot>, b: Block)
    ensures b in LiveBlocks(slots) <==> exists k: nat :: k < |slots| && Offers(slots[k], b)
  {
    if slots != [] {
      LiveBlocksOffered(slots[1..], b);
      if k: nat :| k < |slots[1..]| && Offers(slots[1..][k], b) {
        assert Offers(slots[k + 1], b);
      }
      if k: nat :| 0 < k < |slots| && Offers(slots[k], b) {
        assert Offers(slots[1..][k - 1], b);
      }
    }
  }

  /** What an exchange reads are the blocks of later user messages that no earlier call has. */
  ghost predicate ComesIn(ms: seq<Message>, n: nat, b: Block)
  {
    && n < |ms| && !Answered(AllCalls(ms[..n]), b)
    && exists j :: n < j < |ms| && IsUserBlocks(ms[j]) && b in BlocksOf(ms[j])
  }

  lemma {:induction false} SourceIff(ms: seq<Message>, n: nat, slots: seq<Slot>, b: Block)
    requires Tracks(ms, n, slots) && slots != [] && !RereadsNext(slots[1..])
    ensures b in NextBlocks(slots[1..]) + LiveBlocks(Later(slots[1..])) <==> ComesIn(ms, n, b)
  {
    var rest, calls := slots[1..], AllCalls(ms[..n]);
    LiveBlocksOffered(Later(rest), b);
    if b in NextBlocks(rest) {
      assert Became(slots[1], calls, ms[n + 1]);
      OffersIff(slots[1], calls, ms[n + 1], b);
    }
    if k: nat :| k < |Later(rest)| && Offers(Later(rest)[k], b) {
      assert Later(rest)[k] == slots[k + 2] && Became(slots[k + 2], calls, ms[n + (k + 2)]);
      OffersIff(slots[k + 2], calls, ms[n + (k + 2)], b);
    }
    if ComesIn(ms, n, b) {
      var j :| n < j < |ms| && IsUserBlocks(ms[j]) && b in BlocksOf(ms[j]);
      assert Became(slots[j - n], calls, ms[n + (j - n)]);
      OffersIff(slots[j - n], calls, ms[j], b);
      if j - n > 1 {
        assert Later(rest)[j - n - 2] == slots[j - n];
      }
    }
  }

  lemma {:induction false} OwnsIff(ms: seq<Message>, n: nat, k: nat, b: Block)
    requires n < |ms|
    ensures Owns(ms, n, k, b) <==> ComesIn(ms, n, b) && FirstOf(Calls(ms[n]), b, k)
  {
    var calls := Calls(ms[n]);
    if k < |calls| {
      assert Answered(calls[..k], b) <==> exists j :: 0 <= j < k && Answers(calls[j], b) by {
        if j :| 0 <= j < k && Answers(calls[j], b) {
          assert calls[..k][j] in calls[..k];
        }
      }
    }
  }

  /** Every call of message `n` gets the block it owns, or the notice if there is none. */
  lemma {:induction false} ExchangeGives(ms: seq<Message>, n: nat, slots: seq<Slot>)
    requires OneAnswerEach(ms) && Tracks(ms, n, slots) && slots != [] && HasCalls(ms[n]) && !RereadsNext(slots[1..])
    ensures Results(ms, n, Complete(Calls(ms[n]), Exchange(Calls(ms[n]), slots[1..]).found))
  {
    var calls, rest := Calls(ms[n]), slots[1..];
    var found := Exchange(calls, rest).found;
    var rs := Complete(calls, found);
    CallsAreScarce(ms, n, slots);
    ExchangeAssigns(calls, rest);
    var source := NextBlocks(rest) + LiveBlocks(Later(rest));
    forall k: nat | k < |rs|
      ensures Owns(ms, n, k, rs[k]) || (rs[k] == Notice(calls[k]) && forall b :: !Owns(ms, n, k, b))
    {
      assert calls[k] in calls;
      GivesOne(ms, n, slots, source, found, k);
    }
  }

  lemma {:induction false} GivesOne(ms: seq<Message>, n: nat, slots: seq<Slot>, source: seq<Block>, found: Found,
                                    k: nat)
    requires Tracks(ms, n, slots) && slots != [] && !RereadsNext(slots[1..]) && k < |Calls(ms[n])|
    requires source == NextBlocks(slots[1..]) + LiveBlocks(Later(slots[1..]))
    requires Assigns(Calls(ms[n]), map[], found, source)
    ensures k in found ==> Owns(ms, n, k, found[k])
    ensures k !in found ==> forall b :: !Owns(ms, n, k, b)
  {
    if k in found {
      SourceIff(ms, n, slots, found[k]);
      OwnsIff(ms, n, k, found[k]);
    } else {
      forall b ensures !Owns(ms, n, k, b) {
        SourceIff(ms, n, slots, b);
        OwnsIff(ms, n, k, b);
      }
    }
  }

  /** What is left of the next message once these calls, too, have their results. */
  lemma {:induction false} NextLeaves(ms: seq<Message>, n: nat, slots: seq<Slot>)
    requires OneAnswerEach(ms) && Tracks(ms, n, slots) && slots != [] && HasCalls(ms[n]) && !RereadsNext(slots[1..])
    ensures Nearby(Calls(ms[n]), slots[1..]).other == Left(ms, n + 1)
  {
    var calls, rest := Calls(ms[n]), slots[1..];
    CallsAreScarce(ms, n, slots);
    ExchangeAssigns(calls, rest);
    if |slots| > 1 {
      assert Became(slots[1], AllCalls(ms[..n]), ms[n + 1]);
      AllCallsNext(ms, n);
      if IsUserBlocks(ms[n + 1]) {
        UnansweringTwice(AllCalls(ms[..n]), calls, BlocksOf(ms[n + 1]));
      }
    }
  }

  /** Searching changes what a message holds and nothing else about it. */
  ghost predicate SameHeads(ms: seq<Message>, n: nat, slots: seq<Slot>)
  {
    |slots| == |ms| - n && forall k: nat | k < |slots| ::
      slots[k].msg.role == ms[n + k].role && slots[k].msg.meta == ms[n + k].meta
  }

  lemma {:induction false} SearchKeepsHeads(calls: seq<Block>, found: Found, slots: seq<Slot>, k: nat)
    requires k < |slots|
    ensures var s := Search(calls, found, slots).1[k].msg; s.role == slots[k].msg.role && s.meta == slots[k].msg.meta
    decreases |slots|
  {
    if k > 0 {
      var t := Take(calls, found, BlocksOf(slots[0].msg));
      var f := if slots[0].drained || !IsUserBlocks(slots[0].msg) then found else t.0;
      SearchKeepsHeads(calls, f, slots[1..], k - 1);
    }
  }

  lemma {:induction false} AfterKeepsHeads(ms: seq<Message>, n: nat, slots: seq<Slot>)
    requires SameHeads(ms, n, slots) && slots != []
    ensures SameHeads(ms, n + 1, After(slots))
  {
    if !slots[0].drained && HasCalls(slots[0].msg) {
      var calls, rest := Calls(slots[0].msg), slots[1..];
      var near := Nearby(calls, rest);
      forall k: nat | k < |rest| ensures After(slots)[k].msg.role == ms[n + 1 + k].role &&
                                         After(slots)[k].msg.meta == ms[n + 1 + k].meta
      {
        SearchKeepsHeads(calls, near.found, near.rest, k);
        assert near.rest[k].msg == slots[k + 1].msg;
      }
    }
  }

  /** The first entry, if it is not drained, holds what is left of its message. */
  ghost predicate FirstLeft(ms: seq<Message>, n: nat, slots: seq<Slot>)
  {
    slots != [] && n < |ms| && IsUserBlocks(ms[n]) && !slots[0].drained ==> BlocksOf(slots[0].msg) == Left(ms, n)
  }

  lemma {:induction false} AfterLeaves(ms: seq<Message>, n: nat, slots: seq<Slot>)
    requires OneAnswerEach(ms) && Tracks(ms, n, slots) && slots != []
    ensures FirstLeft(ms, n + 1, After(slots))
  {
    FirstCalls(ms, n, slots);
    if |slots| > 1 && IsUserBlocks(ms[n + 1]) {
      assert Became(slots[1], AllCalls(ms[..n]), ms[n + 1]);
      if HasCalls(ms[n]) {
        CallsAreScarce(ms, n, slots);
        ExchangeFilters(Calls(ms[n]), slots[1..]);
      } else {
        AllCallsNext(ms, n);
        assert AllCalls(ms[..n]) + [] == AllCalls(ms[..n]);
      }
    }
  }

  /** The run from here on, and the messages it stands for. */
  ghost predicate Stands(ms: seq<Message>, n: nat, slots: seq<Slot>)
  {
    Tracks(ms, n, slots) && FirstMerges(ms, n, slots) && SameHeads(ms, n, slots) && FirstLeft(ms, n, slots)
  }

  lemma {:induction false} StandsAfter(ms: seq<Message>, n: nat, slots: seq<Slot>)
    requires OneAnswerEach(ms) && Stands(ms, n, slots) && slots != []
    ensures Stands(ms, n + 1, After(slots))
  {
    TracksAfter(ms, n, slots);
    AfterKeepsHeads(ms, n, slots);
    AfterLeaves(ms, n, slots);
  }

  lemma {:induction false} ExchangeReplies(ms: seq<Message>, n: nat, slots: seq<Slot>)
    requires OneAnswerEach(ms) && Stands(ms, n, slots) && slots != [] && HasCalls(ms[n]) && !RereadsNext(slots[1..])
    ensures Replies(ms, n, Exchange(Calls(ms[n]), slots[1..]).reply)
  {
    var calls, rest := Calls(ms[n]), slots[1..];
    var rs := Complete(calls, Exchange(calls, rest).found);
    ExchangeGives(ms, n, slots);
    NextLeaves(ms, n, slots);
    assert Results(ms, n, rs) && BlocksOf(Exchange(calls, rest).reply) == rs + Left(ms, n + 1);
    if |slots| > 1 {
      assert Became(slots[1], AllCalls(ms[..n]), ms[n + 1]);
      assert rest[0] == slots[1] && slots[0 + 1].msg.meta == ms[n + (0 + 1)].meta;
    }
  }

  lemma {:induction false} FirstIs(ms: seq<Message>, n: nat, slots: seq<Slot>)
    requires Stands(ms, n, slots) && slots != [] && !slots[0].drained
    ensures slots[0].msg == if IsUserBlocks(ms[n]) then ms[n].(content := Blocks(Left(ms, n))) else ms[n]
  {
    assert slots[0].msg.role == ms[n + 0].role;
  }

  lemma {:induction false} RunRegroups(ms: seq<Message>, n: nat, slots: seq<Slot>)
    requires OneAnswerEach(ms) && Shielded(ms) && Stands(ms, n, slots)
    ensures Regroups(ms, n, RepairSlots(slots))
    decreases |slots|
  {
    if slots != [] {
      StandsAfter(ms, n, slots);
      RunRegroups(ms, n + 1, After(slots));
      FirstCalls(ms, n, slots);
      if !slots[0].drained {
        FirstIs(ms, n, slots);
        var out := RepairSlots(slots);
        if HasCalls(ms[n]) {
          RereadsIffExposed(ms, n, slots);
          ExchangeReplies(ms, n, slots);
          assert out[2..] == RepairSlots(After(slots));
        } else {
          assert out[1..] == RepairSlots(After(slots));
        }
      }
    }
  }

  /** The repaired history in full, where each call has at most one answer and no message is
      read twice: each call-bearing message is followed by the results its calls own, in call
      order, and what is left of the message that came next; every other message stands in
      its place with the blocks that no earlier call owns, unless none is left. */
  lemma {:induction false} RepairedIsRegrouped(ms: seq<Message>)
    requires OneAnswerEach(ms) && Shielded(ms)
    ensures Regroups(ms, 0, Repaired(ms))
  {
    TracksFromTheStart(ms);
    NothingMergesFirst(ms);
    if ms != [] {
      assert AllCalls(ms[..0]) == [];
      NothingUnanswering(BlocksOf(ms[0]));
    }
    RunRegroups(ms, 0, Undrained(ms));
  }

  // ---- the description leaves no choice -----------------------------------------------------------------

  /** Two different answers count as two. */
  lemma {:induction false} HitsTwo(blocks: seq<Block>, c: Block, a: Block, b: Block)
    requires Answers(c, a) && Answers(c, b) && a != b
    ensures (if a in blocks then 1 else 0) + (if b in blocks then 1 else 0) <= Hits(blocks, c)
  {
    if blocks != [] {
      HitsTwo(blocks[1..], c, a, b);
      assert blocks == [blocks[0]] + blocks[1..];
    }
  }

  ghost predicate SomewhereIn(ms: seq<Message>, b: Block)
  {
    exists j :: 0 <= j < |ms| && IsUserBlocks(ms[j]) && b in BlocksOf(ms[j])
  }

  lemma {:induction false} SomewhereCons(ms: seq<Message>, b: Block)
    requires ms != []
    ensures SomewhereIn(ms, b) <==> (IsUserBlocks(ms[0]) && b in BlocksOf(ms[0])) || SomewhereIn(ms[1..], b)
  {
    if j :| 0 < j < |ms| && IsUserBlocks(ms[j]) && b in BlocksOf(ms[j]) {
      assert ms[1..][j - 1] == ms[j];
    }
    if j :| 0 <= j < |ms[1..]| && IsUserBlocks(ms[1..][j]) && b in BlocksOf(ms[1..][j]) {
      assert ms[j + 1] == ms[1..][j];
    }
  }

  lemma {:induction false} AnswersTwo(ms: seq<Message>, c: Block, a: Block, b: Block)
    requires Answers(c, a) && Answers(c, b) && a != b
    ensures (if SomewhereIn(ms, a) then 1 else 0) + (if SomewhereIn(ms, b) then 1 else 0) <= AnswersTo(ms, c)
  {
    if ms != [] {
      AnswersTwo(ms[1..], c, a, b);
      SomewhereCons(ms, a);
      SomewhereCons(ms, b);
      HitsTwo(BlocksOf(ms[0]), c, a, b);
    }
  }

  lemma {:induction false} OwnsOne(ms: seq<Message>, i: nat, k: nat, a: Block, b: Block)
    requires OneAnswerEach(ms) && Owns(ms, i, k, a) && Owns(ms, i, k, b)
    ensures a == b
  {
    if a != b {
      var c := Calls(ms[i])[k];
      assert c in Calls(ms[i]);
      AllCallsHas(ms, c);
      AnswersTwo(ms, c, a, b);
    }
  }

  lemma {:induction false} OneReply(ms: seq<Message>, i: nat, m: Message, m': Message)
    requires OneAnswerEach(ms) && i < |ms| && Replies(ms, i, m) && Replies(ms, i, m')
    ensures m == m'
  {
    var rs :| Results(ms, i, rs) && m.content.blocks == rs + Left(ms, i + 1);
    var rs' :| Results(ms, i, rs') && m'.content.blocks == rs' + Left(ms, i + 1);
    forall k: nat | k < |rs| ensures rs[k] == rs'[k] {
      if Owns(ms, i, k, rs[k]) && Owns(ms, i, k, rs'[k]) {
        OwnsOne(ms, i, k, rs[k], rs'[k]);
      }
    }
    assert rs == rs';
  }

  lemma {:induction false} OneRegrouping(ms: seq<Message>, n: nat, out: seq<Message>, out': seq<Message>)
    requires OneAnswerEach(ms) && n <= |ms| && Regroups(ms, n, out) && Regroups(ms, n, out')
    ensures out == out'
    decreases |ms| - n
  {
    if n == |ms| {
    } else if Merges(ms, n) {
      OneRegrouping(ms, n + 1, out, out');
    } else if HasCalls(ms[n]) {
      OneReply(ms, n, out[1], out'[1]);
      OneRegrouping(ms, n + 1, out[2..], out'[2..]);
      assert out == [out[0], out[1]] + out[2..] && out' == [out'[0], out'[1]] + out'[2..];
    } else {
      OneRegrouping(ms, n + 1, out[1..], out'[1..]);
      assert out == [out[0]] + out[1..] && out' == [out'[0]] + out'[1..];
    }
  }

  /** So the repaired history is the one history that fits the description. */
  lemma {:induction false} RepairedIffRegrouped(ms: seq<Message>, out: seq<Message>)
    requires OneAnswerEach(ms) && Shielded(ms)
    ensures out == Repaired(ms) <==> Regroups(ms, 0, out)
  {
    RepairedIsRegrouped(ms);
    if Regroups(ms, 0, out) {
      OneRegrouping(ms, 0, out, Repaired(ms));
    }
  }
}
