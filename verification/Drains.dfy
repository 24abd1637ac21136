/** Which messages a repair drains, read off the history alone: exact where each call
    has at most one answer. */
module Drains {
  import opened Messages
  import opened Repair
  import opened Conservation

  /** The calls of all messages, in order. */
  function AllCalls(ms: seq<Message>): seq<Block>
  {
    if ms == [] then [] else AllCalls(ms[..|ms| - 1]) + Calls(ms[|ms| - 1])
  }

  lemma {:induction false} AllCallsHas(ms: seq<Message>, c: Block)
    ensures c in AllCalls(ms) <==> exists j :: 0 <= j < |ms| && c in Calls(ms[j])
  {
    if ms != [] {
      var n := |ms| - 1;
      AllCallsHas(ms[..n], c);
      assert forall j | 0 <= j < n :: ms[..n][j] == ms[j];
    }
  }

  lemma {:induction false} AllCallsNext(ms: seq<Message>, n: nat)
    requires n < |ms|
    ensures AllCalls(ms[..n + 1]) == AllCalls(ms[..n]) + Calls(ms[n])
  {
    assert ms[..n + 1][..n] == ms[..n];
  }

  /** How many of the blocks answer call `c`. */
  ghost function Hits(blocks: seq<Block>, c: Block): nat
  {
    if blocks == [] then 0 else (if Answers(c, blocks[0]) then 1 else 0) + Hits(blocks[1..], c)
  }

  /** How many blocks of user messages answer call `c`. */
  ghost function AnswersTo(ms: seq<Message>, c: Block): nat
  {
    if ms == [] then 0 else (if IsUserBlocks(ms[0]) then Hits(BlocksOf(ms[0]), c) else 0) + AnswersTo(ms[1..], c)
  }

  /** Each call of the history has at most one answer in it. */
  ghost predicate OneAnswerEach(ms: seq<Message>)
  {
    forall c | c in AllCalls(ms) :: AnswersTo(ms, c) <= 1
  }

  /** The same count over the entries not yet drained. */
  ghost function LiveHits(slots: seq<Slot>, c: Block): nat
  {
    if slots == [] then 0
    else
      (if slots[0].drained || !IsUserBlocks(slots[0].msg) then 0 else Hits(BlocksOf(slots[0].msg), c)) +
      LiveHits(slots[1..], c)
  }

  ghost predicate Answered(calls: seq<Block>, b: Block)
  {
    exists c :: c in calls && Answers(c, b)
  }

  ghost function Unanswering(calls: seq<Block>, blocks: seq<Block>): (r: seq<Block>)
    ensures |r| <= |blocks|
  {
    if blocks == [] then []
    else (if Answered(calls, blocks[0]) then [] else [blocks[0]]) + Unanswering(calls, blocks[1..])
  }

  // ---- a search takes exactly the answers -----------------------------------------------------------

  /** A call already matched has no further answer in `blocks` or later. */
  ghost predicate Spent(calls: seq<Block>, found: Found, blocks: seq<Block>, later: seq<Slot>)
  {
    forall k | k in found :: k < |calls| && Hits(blocks, calls[k]) + LiveHits(later, calls[k]) == 0
  }

  ghost predicate Scarce(calls: seq<Block>, blocks: seq<Block>, later: seq<Slot>)
  {
    forall c | c in calls :: Hits(blocks, c) + LiveHits(later, c) <= 1
  }

  lemma {:induction false} AnsweredIsUnmatched(calls: seq<Block>, found: Found, blocks: seq<Block>, later: seq<Slot>)
    requires blocks != [] && Spent(calls, found, blocks, later)
    ensures UnmatchedCall(calls, found, blocks[0]).Some? <==> Answered(calls, blocks[0])
  {
    var k := UnmatchedCall(calls, found, blocks[0]);
    if k.Some? {
      assert calls[k.value] in calls;
    } else if Answered(calls, blocks[0]) {
      var c :| c in calls && Answers(c, blocks[0]);
      var j :| 0 <= j < |calls| && calls[j] == c;
      assert Hits(blocks, calls[j]) > 0;
    }
  }

  lemma {:induction false} TakeFilters(calls: seq<Block>, found: Found, blocks: seq<Block>, later: seq<Slot>)
    requires Scarce(calls, blocks, later) && Spent(calls, found, blocks, later)
    ensures var r := Take(calls, found, blocks); r.1 == Unanswering(calls, blocks) && Spent(calls, r.0, [], later)
    decreases |blocks|
  {
    if blocks != [] {
      AnsweredIsUnmatched(calls, found, blocks, later);
      var k := UnmatchedCall(calls, found, blocks[0]);
      var found' := if k.Some? then found[k.value := blocks[0]] else found;
      forall j | j in found' ensures j < |calls| && Hits(blocks[1..], calls[j]) + LiveHits(later, calls[j]) == 0 {
        assert calls[j] in calls;
      }
      TakeFilters(calls, found', blocks[1..], later);
    }
  }

  /** What the search for `calls` makes of one entry. */
  ghost function Stripped(calls: seq<Block>, s: Slot): Slot
  {
    if s.drained || !IsUserBlocks(s.msg) then s else Strip(s, Unanswering(calls, BlocksOf(s.msg)))
  }

  lemma {:induction false} SearchFilters(calls: seq<Block>, found: Found, slots: seq<Slot>)
    requires Scarce(calls, [], slots) && Spent(calls, found, [], slots)
    ensures forall i | 0 <= i < |slots| :: Search(calls, found, slots).1[i] == Stripped(calls, slots[i])
    decreases |slots|
  {
    if slots != [] {
      var s, later := slots[0], slots[1..];
      if s.drained || !IsUserBlocks(s.msg) {
        SearchFilters(calls, found, later);
      } else {
        TakeFilters(calls, found, BlocksOf(s.msg), later);
        SearchFilters(calls, Take(calls, found, BlocksOf(s.msg)).0, later);
      }
    }
  }

  /** The blocks an exchange reads next to its calls, drained or not. */
  function NextBlocks(rest: seq<Slot>): seq<Block>
  {
    if rest != [] && IsUserBlocks(rest[0].msg) then BlocksOf(rest[0].msg) else []
  }

  /** The entries an exchange searches. */
  function Later(rest: seq<Slot>): seq<Slot>
  {
    if rest == [] then [] else rest[1..]
  }

  /** Apart from the message next to the calls, which is consumed, an exchange strips
      every entry of the answers to its calls. */
  lemma {:induction false} ExchangeFilters(calls: seq<Block>, rest: seq<Slot>)
    requires (forall c | c in calls :: c.ToolCall?) && Scarce(calls, NextBlocks(rest), Later(rest))
    ensures var x := Exchange(calls, rest);
      && (forall i | 0 < i < |rest| :: x.rest[i] == Stripped(calls, rest[i]))
      && (rest != [] && IsUserBlocks(rest[0].msg) ==> x.rest[0] == rest[0].(drained := true))
      && (rest != [] && !IsUserBlocks(rest[0].msg) ==> x.rest[0] == rest[0])
  {
    var near := Nearby(calls, rest);
    TakeFilters(calls, map[], NextBlocks(rest), Later(rest));
    if rest != [] {
      assert near.rest[1..] == Later(rest);
      SearchFilters(calls, near.found, near.rest);
    }
  }

  // ---- following one message through the run ---------------------------------------------------------

  /** Entry `s` is what message `m` has become once the answers to `calls` are gone. */
  ghost predicate Became(s: Slot, calls: seq<Block>, m: Message)
  {
    if !IsUserBlocks(m) then s == Slot(m, false)
    else
      var left := Unanswering(calls, BlocksOf(m));
      && IsUserBlocks(s.msg)
      && (s.drained <==> left == [] && BlocksOf(m) != [])
      && (!s.drained ==> BlocksOf(s.msg) == left)
      && NoMoreHits(BlocksOf(s.msg), BlocksOf(m))
  }

  /** `now` holds at most the answers that `was` held. */
  ghost predicate NoMoreHits(now: seq<Block>, was: seq<Block>)
  {
    forall c :: Hits(now, c) <= Hits(was, c)
  }

  lemma {:induction false} UnansweringTwice(first: seq<Block>, then_: seq<Block>, blocks: seq<Block>)
    ensures Unanswering(then_, Unanswering(first, blocks)) == Unanswering(first + then_, blocks)
  {
    if blocks != [] {
      var b := blocks[0];
      UnansweringTwice(first, then_, blocks[1..]);
      assert Answered(first + then_, b) <==> Answered(first, b) || Answered(then_, b);
      var rest := Unanswering(first, blocks[1..]);
      if !Answered(first, b) {
        assert ([b] + rest)[1..] == rest;
      } else {
        assert [] + rest == rest;
      }
    }
  }

  lemma {:induction false} NothingUnanswering(blocks: seq<Block>)
    ensures Unanswering([], blocks) == blocks
  {
    if blocks != [] {
      NothingUnanswering(blocks[1..]);
    }
  }

  lemma {:induction false} UnansweringWhole(calls: seq<Block>, blocks: seq<Block>)
    requires |Unanswering(calls, blocks)| == |blocks|
    ensures Unanswering(calls, blocks) == blocks
  {
    if blocks != [] {
      UnansweringWhole(calls, blocks[1..]);
    }
  }

  lemma {:induction false} BecameOn(s: Slot, first: seq<Block>, then_: seq<Block>, m: Message)
    requires Became(s, first, m)
    ensures Became(Stripped(then_, s), first + then_, m)
  {
    if IsUserBlocks(m) {
      UnansweringTwice(first, then_, BlocksOf(m));
      if !s.drained {
        forall c ensures Hits(Unanswering(then_, BlocksOf(s.msg)), c) <= Hits(BlocksOf(m), c) {
          FewerHits(then_, BlocksOf(s.msg), c);
        }
        if |Unanswering(then_, BlocksOf(s.msg))| == |BlocksOf(s.msg)| {
          UnansweringWhole(then_, BlocksOf(s.msg));
        }
      }
    }
  }

  lemma {:induction false} FewerHits(calls: seq<Block>, blocks: seq<Block>, c: Block)
    ensures Hits(Unanswering(calls, blocks), c) <= Hits(blocks, c)
  {
    if blocks != [] {
      FewerHits(calls, blocks[1..], c);
      var rest := Unanswering(calls, blocks[1..]);
      assert ([blocks[0]] + rest)[1..] == rest && [] + rest == rest;
    }
  }

  /** The entries stand for `ms` from message `n` on; the first one may have been
      consumed by the calls before it. */
  ghost predicate Tracks(ms: seq<Message>, n: nat, slots: seq<Slot>)
  {
    && n <= |ms| && |slots| == |ms| - n
    && (slots != [] ==> IsUserBlocks(slots[0].msg) == IsUserBlocks(ms[n]))
    && (slots != [] && !IsUserBlocks(ms[n]) ==> slots[0] == Slot(ms[n], false))
    && forall k | 0 < k < |slots| :: Became(slots[k], AllCalls(ms[..n]), ms[n + k])
  }

  lemma {:induction false} LiveIsFewer(ms: seq<Message>, n: nat, slots: seq<Slot>, k: nat, c: Block)
    requires Tracks(ms, n, slots) && 0 < k <= |slots|
    ensures LiveHits(slots[k..], c) <= AnswersTo(ms[n + k..], c)
    decreases |slots| - k
  {
    if k < |slots| {
      LiveIsFewer(ms, n, slots, k + 1, c);
      assert slots[k..][1..] == slots[k + 1..] && ms[n + k..][1..] == ms[n + k + 1..];
      FewerHits(AllCalls(ms[..n]), BlocksOf(ms[n + k]), c);
      assert Became(slots[k], AllCalls(ms[..n]), ms[n + k]);
    }
  }

  lemma {:induction false} TailHasFewer(ms: seq<Message>, k: nat, c: Block)
    requires k <= |ms|
    ensures AnswersTo(ms[k..], c) <= AnswersTo(ms, c)
  {
    if k > 0 {
      TailHasFewer(ms[1..], k - 1, c);
      assert ms[1..][k - 1..] == ms[k..];
    } else {
      assert ms[0..] == ms;
    }
  }

  lemma {:induction false} CallsAreScarce(ms: seq<Message>, n: nat, slots: seq<Slot>)
    requires OneAnswerEach(ms) && Tracks(ms, n, slots) && slots != []
    ensures Scarce(Calls(ms[n]), NextBlocks(slots[1..]), Later(slots[1..]))
  {
    var rest := slots[1..];
    forall c | c in Calls(ms[n]) ensures Hits(NextBlocks(rest), c) + LiveHits(Later(rest), c) <= 1 {
      CallIsScarce(ms, n, slots, c);
    }
  }

  lemma {:induction false} CallIsScarce(ms: seq<Message>, n: nat, slots: seq<Slot>, c: Block)
    requires OneAnswerEach(ms) && Tracks(ms, n, slots) && slots != [] && c in Calls(ms[n])
    ensures Hits(NextBlocks(slots[1..]), c) + LiveHits(Later(slots[1..]), c) <= 1
  {
    OneAnswerAfter(ms, n, c);
    if |slots| > 1 {
      LiveIsFewer(ms, n, slots, 2, c);
      assert slots[1..][1..] == slots[2..] && ms[n + 1..][1..] == ms[n + 2..];
      assert Became(slots[1], AllCalls(ms[..n]), ms[n + 1]);
      AnswersAhead(slots[1..], AllCalls(ms[..n]), ms[n + 1..], c);
    }
  }

  lemma {:induction false} AnswersAhead(rest: seq<Slot>, calls: seq<Block>, ms: seq<Message>, c: Block)
    requires rest != [] && ms != [] && Became(rest[0], calls, ms[0])
    requires LiveHits(rest[1..], c) <= AnswersTo(ms[1..], c)
    ensures Hits(NextBlocks(rest), c) + LiveHits(Later(rest), c) <= AnswersTo(ms, c)
  {
  }

  lemma {:induction false} OneAnswerAfter(ms: seq<Message>, n: nat, c: Block)
    requires OneAnswerEach(ms) && n < |ms| && c in Calls(ms[n])
    ensures AnswersTo(ms[n + 1..], c) <= 1
  {
    TailHasFewer(ms, n + 1, c);
    AllCallsHas(ms, c);
  }

  lemma {:induction false} ShieldMeans(ms: seq<Message>, i: nat)
    requires AfterCalls(ms, i)
    ensures HasShield(ms, i) <==> Unanswering(AllCalls(ms[..i]), BlocksOf(ms[i + 1])) != []
  {
    var calls, blocks := AllCalls(ms[..i]), BlocksOf(ms[i + 1]);
    forall b ensures Answered(calls, b) <==> exists j, c :: 0 <= j < i && c in Calls(ms[j]) && Answers(c, b) {
      if Answered(calls, b) {
        var c :| c in calls && Answers(c, b);
        AllCallsHas(ms[..i], c);
        var j :| 0 <= j < i && c in Calls(ms[..i][j]);
        assert ms[..i][j] == ms[j];
      }
      if j, c :| 0 <= j < i && c in Calls(ms[j]) && Answers(c, b) {
        assert ms[..i][j] == ms[j];
        AllCallsHas(ms[..i], c);
      }
    }
    SomeUnanswering(calls, blocks);
    if HasShield(ms, i) {
      var b :| Shield(ms, i, b);
      assert !Answered(calls, b);
    }
    if b :| b in blocks && !Answered(calls, b) {
      assert Shield(ms, i, b);
    }
  }

  lemma {:induction false} SomeUnanswering(calls: seq<Block>, blocks: seq<Block>)
    ensures Unanswering(calls, blocks) != [] <==> exists b :: b in blocks && !Answered(calls, b)
  {
    if blocks != [] {
      SomeUnanswering(calls, blocks[1..]);
      assert blocks == [blocks[0]] + blocks[1..];
    }
  }

  // ---- exactly when nothing is copied twice -----------------------------------------------------------

  lemma {:induction false} TracksPast(ms: seq<Message>, n: nat, slots: seq<Slot>)
    requires Tracks(ms, n, slots) && slots != [] && Calls(ms[n]) == []
    ensures Tracks(ms, n + 1, slots[1..])
  {
    AllCallsNext(ms, n);
    assert AllCalls(ms[..n]) + [] == AllCalls(ms[..n]);
    assert |slots| > 1 ==> Became(slots[1], AllCalls(ms[..n]), ms[n + 1]);
    forall k | 0 < k < |slots[1..]| ensures Became(slots[1..][k], AllCalls(ms[..n + 1]), ms[n + 1 + k]) {
      assert Became(slots[k + 1], AllCalls(ms[..n]), ms[n + (k + 1)]);
    }
  }

  lemma {:induction false} TracksExchange(ms: seq<Message>, n: nat, slots: seq<Slot>)
    requires OneAnswerEach(ms) && Tracks(ms, n, slots) && slots != [] && HasCalls(ms[n])
    ensures Tracks(ms, n + 1, Exchange(Calls(ms[n]), slots[1..]).rest)
  {
    var calls, rest := Calls(ms[n]), slots[1..];
    CallsAreScarce(ms, n, slots);
    ExchangeFilters(calls, rest);
    AllCallsNext(ms, n);
    var x := Exchange(calls, rest);
    assert |slots| > 1 ==> Became(slots[1], AllCalls(ms[..n]), ms[n + 1]);
    forall k | 0 < k < |x.rest| ensures Became(x.rest[k], AllCalls(ms[..n + 1]), ms[n + 1 + k]) {
      assert rest[k] == slots[k + 1] && Became(slots[k + 1], AllCalls(ms[..n]), ms[n + (k + 1)]);
      BecameOn(rest[k], AllCalls(ms[..n]), calls, ms[n + 1 + k]);
    }
  }

  lemma {:induction false} RereadsIffExposed(ms: seq<Message>, n: nat, slots: seq<Slot>)
    requires Tracks(ms, n, slots) && slots != [] && HasCalls(ms[n])
    ensures RereadsNext(slots[1..]) <==> Exposed(ms, n)
  {
    if |slots| > 1 {
      assert Became(slots[1], AllCalls(ms[..n]), ms[n + 1]);
      if AfterCalls(ms, n) {
        ShieldMeans(ms, n);
      }
    }
  }

  /** Some message from `n` on is exposed. */
  ghost predicate ExposedFrom(ms: seq<Message>, n: nat)
  {
    exists i: nat :: n <= i && Exposed(ms, i)
  }

  lemma {:induction false} ReadsDrainedIffExposed(ms: seq<Message>, n: nat, slots: seq<Slot>)
    requires OneAnswerEach(ms) && Tracks(ms, n, slots)
    ensures ReadsDrained(slots) <==> ExposedFrom(ms, n)
    decreases |slots|
  {
    if slots != [] {
      assert ExposedFrom(ms, n) <==> Exposed(ms, n) || ExposedFrom(ms, n + 1);
      if slots[0].drained || !HasCalls(slots[0].msg) {
        assert Calls(ms[n]) == [];
        TracksPast(ms, n, slots);
        ReadsDrainedIffExposed(ms, n + 1, slots[1..]);
      } else {
        RereadsIffExposed(ms, n, slots);
        if !RereadsNext(slots[1..]) {
          TracksExchange(ms, n, slots);
          ReadsDrainedIffExposed(ms, n + 1, Exchange(Calls(ms[n]), slots[1..]).rest);
        }
      }
    }
  }

  lemma {:induction false} TracksFromTheStart(ms: seq<Message>)
    ensures Tracks(ms, 0, Undrained(ms))
  {
    var slots := Undrained(ms);
    forall k | 0 < k < |slots| ensures Became(slots[k], [], ms[k]) {
      NothingUnanswering(BlocksOf(ms[k]));
    }
    assert ms[..0] == [];
  }

  /** Where each call has at most one answer, repairing conserves every block if and only
      if no user message right after a call-bearing one has blocks that all answer
      calls of earlier messages. */
  lemma {:induction false} ConservedIffShielded(ms: seq<Message>)
    requires OneAnswerEach(ms)
    ensures Conserved(ms) <==> Shielded(ms)
  {
    TracksFromTheStart(ms);
    ReadsDrainedIffExposed(ms, 0, Undrained(ms));
    ConservedIffNoDrainedRead(ms);
  }
}
