/** The mutable conversation: its loops, proved against the functions that the
    laws of the other modules are about. */
module Conversations {
  import opened Options
  import opened Messages
  import Bounds
  import Repair
  import Appending
  import Compaction

  /** The entries from index `i` on, as the repair loop sees them. */
  function Entries(ms: seq<Message>, processed: set<nat>, i: nat): (slots: seq<Repair.Slot>)
    requires i <= |ms|
    ensures |slots| == |ms| - i
    ensures forall k: nat | k < |slots| :: slots[k] == Repair.Slot(ms[i + k], i + k in processed)
  {
    seq(|ms| - i, k requires 0 <= k < |ms| - i => Repair.Slot(ms[i + k], i + k in processed))
  }

  lemma {:induction false} EntriesCons(ms: seq<Message>, processed: set<nat>, i: nat)
    requires i < |ms|
    ensures Entries(ms, processed, i) ==
            [Repair.Slot(ms[i], i in processed)] + Entries(ms, processed, i + 1)
    ensures Entries(ms, processed, i)[1..] == Entries(ms, processed, i + 1)
  {
  }

  /** The inner block loop of the repair, used for the next message and the search. */
  method ScanBlocks(calls: seq<Block>, already: Repair.Found, blocks: seq<Block>)
    returns (found: Repair.Found, left: seq<Block>)
    ensures (found, left) == Repair.Take(calls, already, blocks)
  {
    found, left := already, [];
    var k := 0;
    ghost var whole := Repair.Take(calls, already, blocks);
    assert blocks[0..] == blocks && [] + whole.1 == whole.1;
    while k < |blocks|
      invariant 0 <= k <= |blocks|
      invariant var r := Repair.Take(calls, found, blocks[k..]);
        Repair.Take(calls, already, blocks) == (r.0, left + r.1)
    {
      var index := Repair.UnmatchedCall(calls, found, blocks[k]);
      assert blocks[k..][1..] == blocks[k + 1..];
      if index.Some? {
        found := found[index.value := blocks[k]];
      } else {
        ghost var r := Repair.Take(calls, found, blocks[k + 1..]);
        assert left + ([blocks[k]] + r.1) == (left + [blocks[k]]) + r.1;
        left := left + [blocks[k]];
      }
      k := k + 1;
    }
    assert left + [] == left;
  }

  /** Only user messages with block content differ, from `start` on. */
  ghost predicate SameShape(before: seq<Message>, after: seq<Message>, start: nat)
  {
    && |before| == |after|
    && forall k | 0 <= k < |before| ::
         if k < start || !IsUserBlocks(before[k]) then after[k] == before[k] else IsUserBlocks(after[k])
  }

  /** One entry of the search: the matches so far and what the entry becomes. */
  function SearchEntry(calls: seq<Block>, found: Repair.Found, s: Repair.Slot): (Repair.Found, Repair.Slot)
  {
    if s.drained || !IsUserBlocks(s.msg) then (found, s)
    else
      var t := Repair.Take(calls, found, BlocksOf(s.msg));
      (t.0, Repair.Strip(s, t.1))
  }

  lemma {:induction false} SearchCons(calls: seq<Block>, found: Repair.Found, s: Repair.Slot, rest: seq<Repair.Slot>,
                                      done: seq<Repair.Slot>)
    ensures var e := SearchEntry(calls, found, s);
      var r, r' := Repair.Search(calls, found, [s] + rest), Repair.Search(calls, e.0, rest);
      (r.0, done + r.1) == (r'.0, (done + [e.1]) + r'.1)
  {
    assert ([s] + rest)[1..] == rest;
    var e := SearchEntry(calls, found, s);
    var r' := Repair.Search(calls, e.0, rest);
    assert done + ([e.1] + r'.1) == (done + [e.1]) + r'.1;
  }

  /** Take what message `j` offers, leaving the rest of it in place. */
  method SearchMessage(messages: array<Message>, calls: seq<Block>, already: Repair.Found, skip: set<nat>, j: nat)
    returns (found: Repair.Found, processed: set<nat>)
    requires j < messages.Length
    modifies messages
    ensures (found, Repair.Slot(messages[j], j in processed)) ==
            SearchEntry(calls, already, Repair.Slot(old(messages[j]), j in skip))
    ensures skip <= processed <= skip + {j}
    ensures forall k | 0 <= k < messages.Length && k != j :: messages[k] == old(messages[k])
  {
    found, processed := already, skip;
    var msg := messages[j];
    if j !in processed && IsUserBlocks(msg) {
      var left;
      found, left := ScanBlocks(calls, found, BlocksOf(msg));
      if |left| < |BlocksOf(msg)| {
        if left != [] {
          messages[j] := msg.(content := Blocks(left));
        } else {
          processed := processed + {j};
        }
      }
    }
  }

  /** Search the remaining conversation, removing what is found where it stood. */
  method SearchRemaining(messages: array<Message>, calls: seq<Block>, already: Repair.Found,
                         skip: set<nat>, start: nat)
    returns (found: Repair.Found, processed: set<nat>)
    requires start <= messages.Length
    modifies messages
    ensures (found, Entries(messages[..], processed, start)) ==
            Repair.Search(calls, already, Entries(old(messages[..]), skip, start))
    ensures SameShape(old(messages[..]), messages[..], start)
  {
    ghost var before, whole := messages[..], Repair.Search(calls, already, Entries(messages[..], skip, start));
    ghost var done: seq<Repair.Slot> := [];
    found, processed := already, skip;
    var j := start;
    assert [] + whole.1 == whole.1;
    while j < messages.Length
      invariant start <= j <= messages.Length && |done| == j - start
      invariant forall k: nat | k < |done| :: done[k] == Repair.Slot(messages[start + k], start + k in processed)
      invariant forall k: nat | j <= k :: k in processed <==> k in skip
      invariant forall k | j <= k < messages.Length :: messages[k] == before[k]
      invariant SameShape(before, messages[..], start)
      invariant Halfway(calls, found, before, skip, j, done, whole)
    {
      HalfwayStep(calls, found, before, skip, j, done, whole);
      found, processed := SearchMessage(messages, calls, found, processed, j);
      done := done + [Repair.Slot(messages[j], j in processed)];
      j := j + 1;
    }
    assert Entries(before, skip, j) == [] && done + [] == done;
    EntriesAre(messages[..], processed, start, done);
  }

  /** What is found and `done` so far, and the search from `j` on, make the whole. */
  ghost predicate Halfway(calls: seq<Block>, found: Repair.Found, before: seq<Message>, skip: set<nat>, j: nat,
                          done: seq<Repair.Slot>, whole: (Repair.Found, seq<Repair.Slot>))
    requires j <= |before|
  {
    var r := Repair.Search(calls, found, Entries(before, skip, j)); whole == (r.0, done + r.1)
  }

  lemma {:induction false} HalfwayStep(calls: seq<Block>, found: Repair.Found, before: seq<Message>, skip: set<nat>,
                                       j: nat,
                                       done: seq<Repair.Slot>, whole: (Repair.Found, seq<Repair.Slot>))
    requires j < |before| && Halfway(calls, found, before, skip, j, done, whole)
    ensures var e := SearchEntry(calls, found, Repair.Slot(before[j], j in skip));
      Halfway(calls, e.0, before, skip, j + 1, done + [e.1], whole)
  {
    EntriesCons(before, skip, j);
    SearchCons(calls, found, Repair.Slot(before[j], j in skip), Entries(before, skip, j + 1), done);
  }

  lemma {:induction false} EntriesAre(ms: seq<Message>, processed: set<nat>, start: nat, done: seq<Repair.Slot>)
    requires start <= |ms| && |done| == |ms| - start
    requires forall k: nat | k < |done| :: done[k] == Repair.Slot(ms[start + k], start + k in processed)
    ensures Entries(ms, processed, start) == done
  {
  }

  ghost function Below(n: nat): (r: set<nat>)
    ensures |r| == n && forall k: nat :: k in r <==> k < n
  {
    if n == 0 then {} else Below(n - 1) + {n - 1}
  }

  /** As many matches as calls means a match for every call. */
  lemma {:induction false} FullFound(calls: seq<Block>, found: Repair.Found)
    requires Repair.Fits(calls, found) && |found| >= |calls|
    ensures forall k | 0 <= k < |calls| :: k in found
  {
    assert found.Keys <= Below(|calls|);
    if found.Keys != Below(|calls|) {
      SmallerSubset(found.Keys, Below(|calls|));
    }
  }

  lemma {:induction false} SmallerSubset(a: set<nat>, b: set<nat>)
    requires a < b
    ensures |a| < |b|
  {
    assert |b| == |a| + |b - a| by {
      assert b == a + (b - a);
    }
  }

  /** `Conversation.repaired` on the caller's own list, which it edits on the way:
      only user messages with block content are touched. */
  method RepairInPlace(messages: array<Message>) returns (fixed: seq<Message>)
    modifies messages
    ensures fixed == Repair.Repaired(old(messages[..]))
    ensures SameShape(old(messages[..]), messages[..], 0)
  {
    fixed := [];
    var processed: set<nat> := {};
    var i := 0;
    assert Entries(messages[..], processed, 0) == Repair.Undrained(messages[..]);
    while i < messages.Length
      invariant 0 <= i <= messages.Length
      invariant Underway(fixed, messages[..], processed, i, Repair.Repaired(old(messages[..])))
      invariant SameShape(old(messages[..]), messages[..], 0)
    {
      ghost var before := messages[..];
      fixed, processed := RepairEntry(messages, i, processed, fixed, Repair.Repaired(old(messages[..])));
      SameShapeTwice(old(messages[..]), before, messages[..]);
      i := i + 1;
    }
    assert fixed + [] == fixed;
  }

  /** One entry of the outer loop. */
  method RepairEntry(messages: array<Message>, i: nat, skip: set<nat>, sofar: seq<Message>, ghost whole: seq<Message>)
    returns (fixed: seq<Message>, processed: set<nat>)
    requires i < messages.Length && Underway(sofar, messages[..], skip, i, whole)
    modifies messages
    ensures Underway(fixed, messages[..], processed, i + 1, whole)
    ensures SameShape(old(messages[..]), messages[..], 0)
  {
    fixed, processed := sofar, skip;
    var message, calls := messages[i], Calls(messages[i]);
    UnderwayStep(fixed, messages[..], processed, i, whole);
    if i in processed {
      return;
    }
    if calls == [] {
      fixed := fixed + [message];
      return;
    }
    var reply;
    reply, processed := AnswerCalls(messages, calls, processed, i + 1);
    fixed := fixed + [message, reply];
  }

  lemma {:induction false} SameShapeTwice(a: seq<Message>, b: seq<Message>, c: seq<Message>)
    requires SameShape(a, b, 0) && SameShape(b, c, 0)
    ensures SameShape(a, c, 0)
  {
  }

  /** What is fixed so far and the repair of the rest make the whole. */
  ghost predicate Underway(fixed: seq<Message>, ms: seq<Message>, processed: set<nat>, i: nat, whole: seq<Message>)
  {
    i <= |ms| && fixed + Repair.RepairSlots(Entries(ms, processed, i)) == whole
  }

  lemma {:induction false} UnderwayStep(fixed: seq<Message>, ms: seq<Message>, processed: set<nat>, i: nat,
                                        whole: seq<Message>)
    requires i < |ms| && Underway(fixed, ms, processed, i, whole)
    ensures i in processed ==> Underway(fixed, ms, processed, i + 1, whole)
    ensures i !in processed && Calls(ms[i]) == [] ==> Underway(fixed + [ms[i]], ms, processed, i + 1, whole)
    ensures i !in processed && Calls(ms[i]) != [] ==>
      var x := Repair.Exchange(Calls(ms[i]), Entries(ms, processed, i + 1));
      (fixed + [ms[i], x.reply]) + Repair.RepairSlots(x.rest) == whole
  {
    EntriesCons(ms, processed, i);
    RepairStep(Repair.Slot(ms[i], i in processed), Entries(ms, processed, i + 1), fixed);
  }

  lemma {:induction false} RepairStep(s: Repair.Slot, rest: seq<Repair.Slot>, fixed: seq<Message>)
    ensures fixed + Repair.RepairSlots([s] + rest) ==
      if s.drained then fixed + Repair.RepairSlots(rest)
      else if !HasCalls(s.msg) then (fixed + [s.msg]) + Repair.RepairSlots(rest)
      else
        var x := Repair.Exchange(Calls(s.msg), rest);
        (fixed + [s.msg, x.reply]) + Repair.RepairSlots(x.rest)
  {
    assert ([s] + rest)[1..] == rest;
  }

  /** The message right after the calls, if it is a user message. */
  method ScanNext(messages: array<Message>, calls: seq<Block>, skip: set<nat>, start: nat)
    returns (found: Repair.Found, other: seq<Block>, meta: Meta, processed: set<nat>)
    requires start <= messages.Length
    ensures Repair.Fits(calls, found)
    ensures Repair.Near(found, other, Entries(messages[..], processed, start), meta) ==
            Repair.Nearby(calls, Entries(messages[..], skip, start))
  {
    found, other, meta, processed := map[], [], NO_META, skip;
    if start < messages.Length && messages[start].role.User? {
      meta := messages[start].meta;
      if messages[start].content.Blocks? {
        Repair.TakeFits(calls, map[], BlocksOf(messages[start]));
        found, other := ScanBlocks(calls, map[], BlocksOf(messages[start]));
        processed := processed + {start};
      }
    }
    ghost var rest := Entries(messages[..], skip, start);
    assert Entries(messages[..], processed, start) == Repair.Nearby(calls, rest).rest;
  }

  method CompleteResults(calls: seq<Block>, found: Repair.Found) returns (complete: seq<Block>)
    requires forall c | c in calls :: c.ToolCall?
    ensures complete == Repair.Complete(calls, found)
  {
    complete := [];
    for k := 0 to |calls|
      invariant complete == Repair.Complete(calls, found)[..k]
    {
      complete := complete + [if k in found then found[k] else Repair.Placeholder(calls[k])];
    }
  }

  /** Build the user message that answers `calls`; `start` is the next index. */
  method AnswerCalls(messages: array<Message>, calls: seq<Block>, skip: set<nat>, start: nat)
    returns (reply: Message, processed: set<nat>)
    requires start <= messages.Length && forall c | c in calls :: c.ToolCall?
    modifies messages
    ensures var x := Repair.Exchange(calls, Entries(old(messages[..]), skip, start));
      reply == x.reply && Entries(messages[..], processed, start) == x.rest
    ensures SameShape(old(messages[..]), messages[..], start)
  {
    var found, other, meta;
    found, other, meta, processed := ScanNext(messages, calls, skip, start);
    if |found| < |calls| {
      found, processed := SearchRemaining(messages, calls, found, processed, start);
    } else {
      FullFound(calls, found);
      Repair.SearchWhenFull(calls, found, Entries(messages[..], processed, start));
    }
    var complete := CompleteResults(calls, found);
    reply := Message(User, Blocks(complete + other), meta);
  }

  class Conversation {
    var history: seq<Message>
    var summary: Option<Message>
    var compactedThrough: nat
    var compactedHistoryLength: nat

    constructor (messages: seq<Message>)
      ensures history == messages && Boundary() == Compaction.UNCOMPACTED && compactedHistoryLength == 0
    {
      history := messages;
      summary, compactedThrough, compactedHistoryLength := None, 0, 0;
    }

    function Boundary(): Compaction.Boundary
      reads this
    {
      Compaction.Boundary(summary, compactedThrough)
    }

    /** The compaction-aware view that is sent to the model. */
    function EffectiveHistory(skill: string -> bool): seq<Message>
      reads this
    {
      Compaction.Effective(history, Boundary(), skill)
    }

    /** Replacing the whole log forgets the compaction boundary. */
    method ReplaceHistory(messages: seq<Message>)
      modifies this
      ensures history == messages && Boundary() == Compaction.UNCOMPACTED && compactedHistoryLength == 0
    {
      history := messages;
      summary, compactedThrough, compactedHistoryLength := None, 0, 0;
    }

    /** Append and repair; an active compaction survives, and on a paired history
        the effective view grows by exactly the repaired new messages. */
    method Extend(messages: seq<Message>, ghost skill: string -> bool)
      modifies this`history
      ensures history == Repair.Repaired(old(history) + messages) && PairedInOrder(history)
      ensures PairedInOrder(old(history)) && compactedThrough <= |old(history)| ==>
                EffectiveHistory(skill) == old(EffectiveHistory(skill)) + Repair.Repaired(messages)
    {
      var all := history + messages;
      var list := new Message[|all|](k requires 0 <= k < |all| => all[k]);
      assert list[..] == all;
      var fixed := RepairInPlace(list);
      Repair.RepairedIsPaired(all);
      if PairedInOrder(history) && compactedThrough <= |history| {
        Compaction.ExtendGrowsEffectiveView(history, messages, Boundary(), skill);
      }
      history := fixed;
    }

    /** Append a user message, reconciling its tool results with those held. */
    method AppendUser(content: Content)
      modifies this`history
      ensures history == Appending.AppendUser(old(history), content)
    {
      var blocks := Appending.Incoming(content);
      var pending, others := SplitIncoming(blocks);
      Appending.PendingAreResults(blocks);
      if pending != [] {
        pending := SettleHistory(pending);
        var added := pending + others;
        if added != [] {
          history := history + [Appending.UserMessage(added)];
        }
      } else {
        var added := if blocks == [] then [Text(Appending.NO_USER_CONTENT)] else blocks;
        history := history + [Appending.UserMessage(added)];
      }
    }

    static method SplitIncoming(blocks: seq<Block>) returns (pending: seq<Block>, others: seq<Block>)
      ensures pending == Appending.Pending(blocks) && others == Appending.Others(blocks)
    {
      pending, others := [], [];
      for k := 0 to |blocks|
        invariant pending == Appending.Pending(blocks[..k]) && others == Appending.Others(blocks[..k])
      {
        assert blocks[..k + 1][..k] == blocks[..k];
        if blocks[k].ToolResult? {
          var same := Appending.FirstSame(pending, blocks[k]);
          pending := if same.Some? then pending[same.value := blocks[k]] else pending + [blocks[k]];
        } else {
          others := others + [blocks[k]];
        }
      }
      assert blocks[..|blocks|] == blocks;
    }

    /** Settle the held results message by message; returns what stays pending. */
    method SettleHistory(incoming: seq<Block>) returns (pending: seq<Block>)
      requires Appending.AllResults(incoming)
      modifies this`history
      ensures Appending.AllResults(pending)
      ensures (history, pending) == Appending.WalkHistory(old(history), incoming)
    {
      pending := incoming;
      ghost var before, done: seq<Message> := history, [];
      var i := 0;
      ghost var whole := Appending.WalkHistory(before, incoming);
      assert before[0..] == before && [] + whole.0 == whole.0;
      while i < |history|
        invariant 0 <= i <= |history| == |before| && Appending.AllResults(pending)
        invariant history[..i] == done && history[i..] == before[i..]
        invariant var w := Appending.WalkHistory(before[i..], pending);
          Appending.WalkHistory(before, incoming) == (done + w.0, w.1)
      {
        var m := history[i];
        assert m == history[i..][0];
        assert before[i..] == [m] + before[i + 1..];
        WalkHistoryCons(m, before[i + 1..], pending, done);
        if IsUserBlocks(m) {
          var updated;
          updated, pending := SettleBlocks(BlocksOf(m), pending);
          m := m.(content := Blocks(updated));
          history := history[i := m];
        }
        done := done + [m];
        assert history[i + 1..] == history[i..][1..] == before[i + 1..];
        i := i + 1;
      }
      assert done + [] == done && history[..i] == history && before[i..] == [];
    }

    static lemma {:induction false} WalkHistoryCons(m: Message, rest: seq<Message>, pending: seq<Block>,
                                                    done: seq<Message>)
      requires Appending.AllResults(pending)
      ensures var w := Appending.WalkHistory([m] + rest, pending);
        var b := if IsUserBlocks(m) then Appending.Walk(BlocksOf(m), pending) else ([], pending);
        var m' := if IsUserBlocks(m) then m.(content := Blocks(b.0)) else m;
        var w' := Appending.WalkHistory(rest, b.1);
        (done + w.0, w.1) == ((done + [m']) + w'.0, w'.1)
    {
      assert ([m] + rest)[1..] == rest;
      var b := if IsUserBlocks(m) then Appending.Walk(BlocksOf(m), pending) else ([], pending);
      var m' := if IsUserBlocks(m) then m.(content := Blocks(b.0)) else m;
      assert done + ([m'] + Appending.WalkHistory(rest, b.1).0) == (done + [m']) + Appending.WalkHistory(rest, b.1).0;
    }

    static method SettleBlocks(blocks: seq<Block>, incoming: seq<Block>)
      returns (updated: seq<Block>, pending: seq<Block>)
      requires Appending.AllResults(incoming)
      ensures Appending.AllResults(pending)
      ensures (updated, pending) == Appending.Walk(blocks, incoming)
    {
      updated, pending := [], incoming;
      var k := 0;
      ghost var whole := Appending.Walk(blocks, incoming);
      assert blocks[0..] == blocks && [] + whole.0 == whole.0;
      while k < |blocks|
        invariant 0 <= k <= |blocks| && Appending.AllResults(pending)
        invariant var w := Appending.Walk(blocks[k..], pending);
          Appending.Walk(blocks, incoming) == (updated + w.0, w.1)
      {
        var b, match_ := blocks[k], Appending.Match(blocks[k], pending);
        assert blocks[k..][1..] == blocks[k + 1..];
        ghost var first := Appending.Settle(b, pending);
        ghost var w := Appending.Walk(blocks[k + 1..], first.1);
        assert updated + ([first.0] + w.0) == (updated + [first.0]) + w.0;
        if match_.Some? {
          var candidate := pending[match_.value];
          updated := updated + [if Appending.ShouldReplace(b, candidate) then candidate else b];
          pending := pending[..match_.value] + pending[match_.value + 1..];
        } else {
          updated := updated + [b];
        }
        k := k + 1;
      }
      assert updated + [] == updated;
    }

    method AppendAssistant(m: Message)
      modifies this`history
      ensures history == Appending.AppendAssistant(old(history), m)
    {
      var kept := m;
      if m.content == Str("") || m.content == Blocks([]) {
        kept := m.(content := Blocks([Text(Appending.NO_ASSISTANT_CONTENT)]));
      }
      history := history + [kept];
    }

    /** Only the boundary moves; the history is untouched. */
    method ApplyCompaction(text: string, split: int)
      modifies this`summary, this`compactedThrough, this`compactedHistoryLength
      ensures Boundary() == Compaction.Compacted(history, text, split) && compactedHistoryLength == |history|
    {
      summary := Some(Compaction.SummaryMessage(text));
      compactedThrough := Bounds.Max(0, Bounds.Min(split, |history|));
      compactedHistoryLength := |history|;
    }

    method SnapToSafeBoundary(index: nat) returns (r: nat)
      requires index <= |history|
      ensures r == Compaction.Snap(history, index)
    {
      r := index;
      while r > 0 && HasCalls(history[r - 1])
        invariant r <= index && Compaction.Snap(history, r) == Compaction.Snap(history, index)
      {
        r := r - 1;
      }
    }

    method SnapSplitPoint(index: int) returns (r: nat)
      ensures r == Compaction.Snap(history, Bounds.Max(0, Bounds.Min(index, |history|)))
    {
      r := SnapToSafeBoundary(Bounds.Max(0, Bounds.Min(index, |history|)));
    }

    method CompactionSplitPoint(keepRecent: nat, minPrefix: nat) returns (r: Option<nat>)
      ensures r == Compaction.SplitPoint(history, keepRecent, minPrefix)
    {
      if |history| <= minPrefix {
        return None;
      }
      var candidate := SnapToSafeBoundary(Bounds.Max(0, |history| - keepRecent));
      return if candidate < minPrefix then None else Some(candidate);
    }
  }
}
