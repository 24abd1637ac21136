/** Where the messages of a history land in its repaired form. */
module Landings {
  import opened Messages
  import opened Repair
  import opened Conservation
  import opened Drains

  // ---- by following the run --------------------------------------------------------------------

  /** How many messages the run puts out for the first entry. */
  function Output(s: Slot): nat
  {
    if s.drained then 0 else if HasCalls(s.msg) then 2 else 1
  }

  /** What the run goes on with after the first entry. */
  function After(slots: seq<Slot>): (rest: seq<Slot>)
    requires slots != []
    ensures |rest| == |slots| - 1
  {
    if slots[0].drained || !HasCalls(slots[0].msg) then slots[1..]
    else Exchange(Calls(slots[0].msg), slots[1..]).rest
  }

  /** How many messages the run puts out before it reaches entry `k`. */
  function Emitted(slots: seq<Slot>, k: nat): nat
    requires k <= |slots|
    decreases k
  {
    if k == 0 then 0 else Output(slots[0]) + Emitted(After(slots), k - 1)
  }

  /** Some call-bearing entry is put out at place `i`. */
  ghost predicate CallsAt(slots: seq<Slot>, i: nat)
  {
    exists k: nat :: k < |slots| && HasCalls(slots[k].msg) && Emitted(slots, k) == i
  }

  lemma {:induction false} AfterKeepsCalls(slots: seq<Slot>)
    requires slots != [] && OnlyUserBlocksDrained(slots)
    ensures OnlyUserBlocksDrained(After(slots))
    ensures forall k | 0 <= k < |slots| - 1 :: HasCalls(After(slots)[k].msg) == HasCalls(slots[k + 1].msg)
  {
    assert OnlyUserBlocksDrained(slots[1..]);
    if !slots[0].drained && HasCalls(slots[0].msg) {
      ExchangeKeepsOrder(Calls(slots[0].msg), slots[1..]);
      forall k | 0 <= k < |slots| - 1 ensures HasCalls(After(slots)[k].msg) == HasCalls(slots[k + 1].msg) {
        ExchangeLeaves(slots, k);
      }
    }
  }

  lemma {:induction false} CallsAtStep(slots: seq<Slot>, i: nat)
    requires slots != [] && OnlyUserBlocksDrained(slots)
    ensures CallsAt(slots, i) <==>
      (HasCalls(slots[0].msg) && i == 0) || (Output(slots[0]) <= i && CallsAt(After(slots), i - Output(slots[0])))
  {
    var rest, w := After(slots), Output(slots[0]);
    AfterKeepsCalls(slots);
    if k: nat :| k < |slots| && HasCalls(slots[k].msg) && Emitted(slots, k) == i && k > 0 {
      assert HasCalls(rest[k - 1].msg) && Emitted(rest, k - 1) == i - w;
    }
    if w <= i && CallsAt(rest, i - w) {
      var k: nat :| k < |rest| && HasCalls(rest[k].msg) && Emitted(rest, k) == i - w;
      assert HasCalls(slots[k + 1].msg) && Emitted(slots, k + 1) == i;
    }
    if HasCalls(slots[0].msg) && i == 0 {
      assert Emitted(slots, 0) == 0;
    }
  }

  /** The run puts out as many messages as it counts. */
  lemma {:induction false} RunLength(slots: seq<Slot>)
    ensures |RepairSlots(slots)| == Emitted(slots, |slots|)
    decreases |slots|
  {
    if slots != [] {
      RunLength(After(slots));
    }
  }

  /** Its call-bearing messages stand where it counts them. */
  lemma {:induction false} RunCalls(slots: seq<Slot>, i: nat)
    requires OnlyUserBlocksDrained(slots) && i < |RepairSlots(slots)|
    ensures HasCalls(RepairSlots(slots)[i]) <==> CallsAt(slots, i)
    decreases |slots|
  {
    var rest, w := After(slots), Output(slots[0]);
    FirstOutput(slots);
    CallsAtStep(slots, i);
    if i >= w {
      AfterKeepsCalls(slots);
      RunCalls(rest, i - w);
      assert RepairSlots(slots)[i] == RepairSlots(slots)[w..][i - w];
    }
  }

  lemma {:induction false} FirstOutput(slots: seq<Slot>)
    requires slots != [] && OnlyUserBlocksDrained(slots)
    ensures var out, w := RepairSlots(slots), Output(slots[0]);
      && |out| == w + |RepairSlots(After(slots))| && out[w..] == RepairSlots(After(slots))
      && (forall i | 0 <= i < w :: HasCalls(out[i]) <==> i == 0 && HasCalls(slots[0].msg))
      && (HasCalls(slots[0].msg) ==> w > 0)
  {
    assert slots[0] in slots;
  }

  // ---- from the history alone ------------------------------------------------------------------

  /** Every block of message `i` answers a call of an earlier message. */
  ghost predicate Consumed(ms: seq<Message>, i: nat)
    requires i < |ms|
  {
    BlocksOf(ms[i]) != [] && forall b | b in BlocksOf(ms[i]) :: Answered(AllCalls(ms[..i]), b)
  }

  /** Message `i` leaves no message of its own: it comes right after calls, or earlier
      calls take all of it. */
  ghost predicate Merges(ms: seq<Message>, i: nat)
    requires i < |ms|
  {
    IsUserBlocks(ms[i]) && ((i > 0 && HasCalls(ms[i - 1])) || Consumed(ms, i))
  }

  /** How many repaired messages message `i` leaves, its reply included. */
  ghost function Width(ms: seq<Message>, i: nat): nat
    requires i < |ms|
  {
    if Merges(ms, i) then 0 else if HasCalls(ms[i]) then 2 else 1
  }

  /** How many repaired messages the messages from `n` up to `k` leave. */
  ghost function Widths(ms: seq<Message>, n: nat, k: nat): nat
    requires n <= k <= |ms|
    decreases k - n
  {
    if n == k then 0 else Width(ms, n) + Widths(ms, n + 1, k)
  }

  /** How many repaired messages come before what message `k` becomes. */
  ghost function Landing(ms: seq<Message>, k: nat): nat
    requires k <= |ms|
  {
    Widths(ms, 0, k)
  }

  /** The first entry is drained if and only if its message merges. */
  ghost predicate FirstMerges(ms: seq<Message>, n: nat, slots: seq<Slot>)
  {
    slots != [] && n < |ms| ==> (slots[0].drained <==> Merges(ms, n))
  }

  lemma {:induction false} FirstCalls(ms: seq<Message>, n: nat, slots: seq<Slot>)
    requires Tracks(ms, n, slots) && slots != []
    ensures Calls(slots[0].msg) == Calls(ms[n])
    ensures HasCalls(ms[n]) ==> !slots[0].drained
    ensures FirstMerges(ms, n, slots) ==> Output(slots[0]) == Width(ms, n)
  {
  }

  lemma {:induction false} MergesPastCalls(ms: seq<Message>, n: nat, slots: seq<Slot>)
    requires OneAnswerEach(ms) && Tracks(ms, n, slots) && slots != [] && HasCalls(ms[n])
    ensures FirstMerges(ms, n + 1, Exchange(Calls(ms[n]), slots[1..]).rest)
  {
    CallsAreScarce(ms, n, slots);
    ExchangeFilters(Calls(ms[n]), slots[1..]);
    if |slots| > 1 {
      assert Became(slots[1], AllCalls(ms[..n]), ms[n + 1]);
    }
  }

  lemma {:induction false} MergesPast(ms: seq<Message>, n: nat, slots: seq<Slot>)
    requires Tracks(ms, n, slots) && slots != [] && Calls(ms[n]) == []
    ensures FirstMerges(ms, n + 1, slots[1..])
  {
    if |slots| > 1 {
      AllCallsNext(ms, n);
      assert AllCalls(ms[..n]) + [] == AllCalls(ms[..n]);
      assert Became(slots[1], AllCalls(ms[..n]), ms[n + 1]);
      SomeUnanswering(AllCalls(ms[..n]), BlocksOf(ms[n + 1]));
    }
  }

  lemma {:induction false} TracksAfter(ms: seq<Message>, n: nat, slots: seq<Slot>)
    requires OneAnswerEach(ms) && Tracks(ms, n, slots) && slots != []
    ensures Tracks(ms, n + 1, After(slots)) && FirstMerges(ms, n + 1, After(slots))
  {
    FirstCalls(ms, n, slots);
    if HasCalls(ms[n]) {
      TracksExchange(ms, n, slots);
      MergesPastCalls(ms, n, slots);
    } else {
      TracksPast(ms, n, slots);
      MergesPast(ms, n, slots);
    }
  }

  lemma {:induction false} EmittedIsWidths(ms: seq<Message>, n: nat, slots: seq<Slot>, k: nat)
    requires OneAnswerEach(ms) && Tracks(ms, n, slots) && FirstMerges(ms, n, slots) && n <= k <= |ms|
    ensures Emitted(slots, k - n) == Widths(ms, n, k)
    decreases k - n
  {
    if n < k {
      FirstCalls(ms, n, slots);
      TracksAfter(ms, n, slots);
      EmittedIsWidths(ms, n + 1, After(slots), k);
    }
  }

  lemma {:induction false} NothingMergesFirst(ms: seq<Message>)
    ensures FirstMerges(ms, 0, Undrained(ms))
  {
    assert AllCalls(ms[..0]) == [];
    if ms != [] && BlocksOf(ms[0]) != [] {
      assert BlocksOf(ms[0])[0] in BlocksOf(ms[0]);
    }
  }

  /** Some call-bearing message of the history lands at place `i`. */
  ghost predicate CallsLandAt(ms: seq<Message>, i: nat)
  {
    exists k: nat :: k < |ms| && HasCalls(ms[k]) && Landing(ms, k) == i
  }

  /** Where each call has at most one answer, the history alone says how long its
      repaired form is and which of its messages bear calls. */
  lemma {:induction false} MessagesLand(ms: seq<Message>)
    requires OneAnswerEach(ms)
    ensures |Repaired(ms)| == Landing(ms, |ms|)
    ensures forall i: nat | i < |Repaired(ms)| :: HasCalls(Repaired(ms)[i]) <==> CallsLandAt(ms, i)
  {
    var slots := Undrained(ms);
    RunLength(slots);
    TracksFromTheStart(ms);
    NothingMergesFirst(ms);
    forall k: nat | k <= |ms| ensures Emitted(slots, k) == Landing(ms, k) {
      EmittedIsWidths(ms, 0, slots, k);
    }
    forall i: nat | i < |Repaired(ms)| ensures HasCalls(Repaired(ms)[i]) <==> CallsLandAt(ms, i) {
      RunCalls(slots, i);
      if CallsAt(slots, i) {
        var k: nat :| k < |slots| && HasCalls(slots[k].msg) && Emitted(slots, k) == i;
        assert HasCalls(ms[k]) && Landing(ms, k) == i;
      }
      if CallsLandAt(ms, i) {
        var k: nat :| k < |ms| && HasCalls(ms[k]) && Landing(ms, k) == i;
        assert HasCalls(slots[k].msg) && Emitted(slots, k) == i;
      }
    }
  }
}
