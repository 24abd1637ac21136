/** `HistoryCompressor.summarize`: from split point to recorded boundary. */
module Compressor {
  import opened Options
  import opened Messages
  import opened Compaction
  import opened Boundaries
  import opened Planner
  import Conversations

  const MIN_MESSAGES_TO_COMPRESS := 5
  const KEEP_RECENT_MESSAGES := 6
  const MIN_PREFIX_TO_SUMMARIZE := 3
  const SUMMARY_EMPTY_ATTEMPTS := 3

  datatype Outcome = Done(folded: nat) | TooFew | NothingToSummarize | EmptySummary | LlmError

  /** Everything outside the program, as arbitrary answers in call order: the token
      counter, the provider's budget verdicts, and the text of each completed
      response (`None` when the request failed for another reason). */
  datatype World = World(counts: nat -> nat, rejects: nat -> bool, replies: nat -> Option<string>)

  method DescribeSpan(history: seq<Message>, prior: nat, split: nat, model: string, weigh: Message -> nat)
    returns (s: Span)
    requires prior <= split <= |history|
    ensures s.Wf() && s.prior == prior && s.split == split && Describes(s, history)
    ensures forall k | 0 <= k < |s.weights| :: s.weights[k] == weigh(WithoutImages(history[prior + k], model))
  {
    var n := split - prior;
    var calls := seq(|history|, i requires 0 <= i < |history| => HasCalls(history[i]));
    var prefix := seq(n, k requires 0 <= k < n => WithoutImages(history[prior + k], model));
    var weights := seq<nat>(n, k requires 0 <= k < n => weigh(prefix[k]));
    var bundles := seq(n, k requires 0 <= k < n => BundlesResults(prefix[k]));
    s := Span(calls, prior, split, weights, bundles);
    forall k | 0 <= k < n ensures BundlesAt(s, history, k) {
      BundlesStay(history[prior + k], model);
    }
    assert forall i | 0 <= i < |history| :: CallsAt(s, history, i);
  }

  lemma {:induction false} BundlesStay(m: Message, model: string)
    ensures BundlesResults(WithoutImages(m, model)) == BundlesResults(m)
  {
    WithoutImagesKeepsResults(m, model);
  }

  /** Both edges of what a request leaves out keep each exchange whole. */
  ghost predicate KeepsWhole(s: Span, history: seq<Message>, g: Gap)
  {
    && 0 <= s.prior + g.head <= s.prior + g.tail <= |history|
    && CutsWhole(history, s.prior + g.head) && CutsWhole(history, s.prior + g.tail)
  }

  /** The requests of one compaction: at most ten and, from a safe boundary, each leaving
      out strictly more than all before it and none splitting an exchange. */
  ghost predicate Requests(s: Span, history: seq<Message>, sent: seq<Gap>, safe: bool)
  {
    && |sent| <= 10
    && (safe ==> Growing(sent))
    && (safe && Whole(history) ==> forall g | g in sent :: KeepsWhole(s, history, g))
  }

  lemma {:induction false} LadderRequests(s: Span, history: seq<Message>, sent: seq<Gap>, safe: bool)
    requires s.Wf() && Describes(s, history) && |sent| <= 10
    requires safe ==> s.Safe() && Growing(sent) && AllPlanned(s, sent)
    ensures Requests(s, history, sent, safe)
  {
    if safe && Whole(history) {
      forall g | g in sent ensures KeepsWhole(s, history, g) {
        GapKeepsExchangesWhole(s, history, g);
      }
    }
  }

  lemma {:induction false} RecordedViewIsValid(ms: seq<Message>, keep: nat, text: string, skill: string -> bool)
    requires SplitPoint(ms, keep, MIN_PREFIX_TO_SUMMARIZE).Some?
    ensures var split := SplitPoint(ms, keep, MIN_PREFIX_TO_SUMMARIZE).value;
      Whole(ms) && ValidForProvider(ms) ==>
        CutsWhole(ms, split) && ValidForProvider(Effective(ms, Compacted(ms, text, split), skill))
  {
    if Whole(ms) && ValidForProvider(ms) {
      CompactionAtSplitPoint(ms, keep, MIN_PREFIX_TO_SUMMARIZE, text, skill);
    }
  }

  /** The requests are those of the budget ladder over the span from `prior` to `split`: one
      for the whole span without a bound, and a rejected last one only after all rungs. */
  ghost predicate Dispatches(s: Span, history: seq<Message>, prior: nat, split: nat, bound: Option<nat>, world: World,
                             sent: seq<Gap>)
  {
    && s.Wf() && s.prior == prior && s.split == split && Describes(s, history) && sent != []
    && AllRejected(world.rejects, |sent| - 1)
    && (bound.None? ==> sent == [s.NoGap()])
    && (bound.Some? ==> exists stops :: ClimbsAll(s, bound.value, world, sent, stops))
  }

  ghost predicate ClimbsAll(s: Span, bound: nat, world: World, sent: seq<Gap>, stops: Stops)
  {
    && s.Wf() && Climbed(s, TargetChars, bound, world.counts, stops) && sent == Moves(stops) && sent != []
    && (world.rejects(|sent| - 1) ==> |stops| == 11)
  }

  /** The first `k` replies came, and all were blank. */
  predicate BlankBefore(world: World, blank: string -> bool, k: nat)
  {
    forall j: nat | j < k :: world.replies(j).Some? && blank(world.replies(j).value)
  }

  /** Reply `k` is the first that says something, within the three attempts. */
  predicate Tells(world: World, blank: string -> bool, k: nat)
  {
    k < 3 && BlankBefore(world, blank, k) && world.replies(k).Some? && !blank(world.replies(k).value)
  }

  /** Request `k` fails before any reply said something, within the three attempts. */
  predicate FailsAt(world: World, blank: string -> bool, k: nat)
  {
    k < 3 && BlankBefore(world, blank, k) && world.replies(k).None?
  }

  /** There is something to fold: messages between the prior boundary and the split point. */
  predicate Foldable(history: seq<Message>, prior: nat, keep: nat)
  {
    |history| >= 5 && SplitPoint(history, keep, 3).Some? && SplitPoint(history, keep, 3).value > prior
  }

  /** Why nothing was recorded, or that the first reply that says something was. */
  ghost predicate Reports(r: Outcome, history: seq<Message>, prior: nat, keep: nat, rejected: bool, world: World,
                    blank: string -> bool)
  {
    && (r.TooFew? <==> |history| < 5)
    && (r.NothingToSummarize? <==> |history| >= 5 && !Foldable(history, prior, keep))
    && (r.LlmError? <==> Foldable(history, prior, keep) && (rejected || exists k: nat :: FailsAt(world, blank, k)))
    && (r.Done? <==> Foldable(history, prior, keep) && !rejected && exists k: nat :: Tells(world, blank, k))
    && (r.EmptySummary? <==> Foldable(history, prior, keep) && !rejected && BlankBefore(world, blank, 3))
    && (r.Done? ==> prior + r.folded == SplitPoint(history, keep, 3).value)
  }

  /** What one compaction comes to, from boundary `before` to `after`: each outcome comes
      exactly when it should; the summary of everything before the split point is recorded,
      or nothing changes; the boundary moves to a safe cut, the view sent to the model stays
      valid, and no request splits an exchange. */
  ghost predicate Summarized(history: seq<Message>, keep: nat, before: Boundary, after: Boundary, bound: Option<nat>,
                             world: World, blank: string -> bool, skill: string -> bool,
                             r: Outcome, s: Span, sent: seq<Gap>)
  {
    var prior := if before.summary.Some? then before.through else 0;
    && Reports(r, history, prior, keep, sent != [] && world.rejects(|sent| - 1), world, blank)
    && (Foldable(history, prior, keep) ==>
          Dispatches(s, history, prior, SplitPoint(history, keep, 3).value, bound, world, sent))
    && (!r.Done? ==> after == before)
    && (r.Done? ==> SplitPoint(history, keep, 3) == Some(after.through))
    && (r.Done? ==> SafelyCut(history, after) && FoldsWell(history, after, skill))
    && (r.Done? ==> forall k: nat | Tells(world, blank, k) ::
          after.summary == Some(SummaryMessage(world.replies(k).value)))
    && Requests(s, history, sent, SafelyCut(history, before))
  }

  method Summarize(c: Conversations.Conversation, keepRecent: Option<nat>, bound: Option<nat>,
                   model: string, weigh: Message -> nat, blank: string -> bool, world: World,
                   ghost skill: string -> bool)
    returns (r: Outcome, ghost s: Span, ghost sent: seq<Gap>)
    modifies c`summary, c`compactedThrough, c`compactedHistoryLength
    ensures Summarized(c.history, if keepRecent.Some? then keepRecent.value else 6, old(c.Boundary()), c.Boundary(),
                       bound, world, blank, skill, r, s, sent)
    ensures c.compactedHistoryLength == if r.Done? then |c.history| else old(c.compactedHistoryLength)
  {
    s, sent := Span([], 0, 0, [], []), [];
    var keep := if keepRecent.Some? then keepRecent.value else KEEP_RECENT_MESSAGES;
    ghost var before := c.Boundary();
    if |c.history| < MIN_MESSAGES_TO_COMPRESS {
      NothingDone(c.history, keep, before, bound, world, blank, skill, TooFew, s);
      return TooFew, s, sent;
    }
    var split := c.CompactionSplitPoint(keep, MIN_PREFIX_TO_SUMMARIZE);
    var prior := if c.summary.Some? then c.compactedThrough else 0;
    if split.None? || split.value <= prior {
      NothingDone(c.history, keep, before, bound, world, blank, skill, NothingToSummarize, s);
      return NothingToSummarize, s, sent;
    }
    var text;
    r, text, s, sent := Ask(c.history, prior, split.value, keep, bound, model, weigh, blank, world);
    if text.Some? {
      Record(c, text.value, split.value, keep, skill);
    }
    Concluded(c.history, keep, before, c.Boundary(), bound, world, blank, skill, r, s, sent, text);
  }

  lemma {:induction false} NothingDone(history: seq<Message>, keep: nat, before: Boundary, bound: Option<nat>,
                                       world: World, blank: string -> bool, skill: string -> bool, r: Outcome, s: Span)
    requires !Foldable(history, if before.summary.Some? then before.through else 0, keep)
    requires r == if |history| < 5 then TooFew else NothingToSummarize
    ensures Summarized(history, keep, before, before, bound, world, blank, skill, r, s, [])
  {
  }

  lemma {:induction false} Concluded(history: seq<Message>, keep: nat, before: Boundary, after: Boundary,
                                     bound: Option<nat>, world: World, blank: string -> bool, skill: string -> bool,
                                     r: Outcome, s: Span, sent: seq<Gap>, text: Option<string>)
    requires var prior := if before.summary.Some? then before.through else 0;
      && Foldable(history, prior, keep)
      && (prior <= |history| ==> Requests(s, history, sent, SafeCut(history, prior)))
      && Dispatches(s, history, prior, SplitPoint(history, keep, 3).value, bound, world, sent)
      && Reports(r, history, prior, keep, world.rejects(|sent| - 1), world, blank)
    requires r.Done? <==> text.Some?
    requires forall k: nat | text.Some? && Tells(world, blank, k) :: text == world.replies(k)
    requires after == if text.Some? then Boundary(Some(SummaryMessage(text.value)), SplitPoint(history, keep, 3).value)
                      else before
    requires text.Some? ==> FoldsWell(history, after, skill)
    ensures Summarized(history, keep, before, after, bound, world, blank, skill, r, s, sent)
  {
  }

  /** The view of a history folded at this boundary: valid, and no exchange is cut. */
  ghost predicate FoldsWell(history: seq<Message>, b: Boundary, skill: string -> bool)
  {
    b.through <= |history| && (Whole(history) && ValidForProvider(history) ==>
      CutsWhole(history, b.through) && ValidForProvider(Effective(history, b, skill)))
  }

  /** Record the summary of everything before the split point. */
  method Record(c: Conversations.Conversation, text: string, split: nat, ghost keep: nat,
                ghost skill: string -> bool)
    requires SplitPoint(c.history, keep, 3) == Some(split)
    modifies c`summary, c`compactedThrough, c`compactedHistoryLength
    ensures c.Boundary() == Boundary(Some(SummaryMessage(text)), split)
    ensures c.compactedHistoryLength == |c.history| && FoldsWell(c.history, c.Boundary(), skill)
  {
    RecordedViewIsValid(c.history, keep, text, skill);
    c.ApplyCompaction(text, split);
  }

  lemma {:induction false} ReportsHeard(history: seq<Message>, prior: nat, keep: nat, world: World,
                                        blank: string -> bool, text: Option<string>, failed: bool)
    requires Foldable(history, prior, keep) && Heard(world, blank, text, failed)
    ensures var folded := SplitPoint(history, keep, 3).value - prior;
      Reports(if failed then LlmError else if text.None? then EmptySummary else Done(folded),
              history, prior, keep, false, world, blank)
  {
  }

  lemma {:induction false} ReportsRejected(history: seq<Message>, prior: nat, keep: nat, world: World,
                                           blank: string -> bool)
    requires Foldable(history, prior, keep)
    ensures Reports(LlmError, history, prior, keep, true, world, blank)
  {
  }

  /** The requests, and the first reply that says something to the one accepted. */
  method Ask(history: seq<Message>, prior: nat, split: nat, ghost keep: nat, bound: Option<nat>, model: string,
             weigh: Message -> nat, blank: string -> bool, world: World)
    returns (r: Outcome, text: Option<string>, ghost s: Span, ghost sent: seq<Gap>)
    requires Foldable(history, prior, keep) && SplitPoint(history, keep, 3) == Some(split)
    ensures Requests(s, history, sent, SafeCut(history, prior))
    ensures Dispatches(s, history, prior, split, bound, world, sent)
    ensures Reports(r, history, prior, keep, world.rejects(|sent| - 1), world, blank)
    ensures r.Done? <==> text.Some?
    ensures forall k: nat | text.Some? && Tells(world, blank, k) :: text == world.replies(k)
  {
    var verdict;
    verdict, s, sent := SendRequests(history, prior, split, bound, model, weigh, world);
    if verdict.Rejected? {
      ReportsRejected(history, prior, keep, world, blank);
      return LlmError, None, s, sent;
    }
    var failed;
    text, failed := FirstReply(world, blank);
    ReportsHeard(history, prior, keep, world, blank, text, failed);
    if failed {
      return LlmError, None, s, sent;
    }
    return if text.None? then EmptySummary else Done(split - prior), text, s, sent;
  }

  /** What the replies come to: one of the three cases, and only one. */
  ghost predicate Heard(world: World, blank: string -> bool, text: Option<string>, failed: bool)
  {
    && (failed <==> exists k: nat :: FailsAt(world, blank, k))
    && (text.Some? <==> exists k: nat :: Tells(world, blank, k))
    && (!failed && text.None? <==> BlankBefore(world, blank, 3))
    && forall k: nat | Tells(world, blank, k) :: text == world.replies(k)
  }

  lemma {:induction false} HeardAt(world: World, blank: string -> bool, k: nat)
    requires k < 3 && BlankBefore(world, blank, k)
    requires world.replies(k).None? || !blank(world.replies(k).value)
    ensures Heard(world, blank, world.replies(k), world.replies(k).None?)
  {
    if world.replies(k).None? {
      assert FailsAt(world, blank, k);
    } else {
      assert Tells(world, blank, k);
    }
  }

  /** Blank replies are asked for again, three times at most. */
  method FirstReply(world: World, blank: string -> bool) returns (text: Option<string>, failed: bool)
    ensures Heard(world, blank, text, failed)
  {
    for attempt := 0 to SUMMARY_EMPTY_ATTEMPTS
      invariant BlankBefore(world, blank, attempt)
    {
      var reply := world.replies(attempt);
      if reply.None? || !blank(reply.value) {
        HeardAt(world, blank, attempt);
        return reply, reply.None?;
      }
    }
    return None, false;
  }

  /** The span between the boundaries and the ladder over it. */
  method SendRequests(history: seq<Message>, prior: nat, split: nat, bound: Option<nat>,
                      model: string, weigh: Message -> nat, world: World)
    returns (verdict: Dispatched, ghost s: Span, ghost sent: seq<Gap>)
    requires prior <= split <= |history| && SafeCut(history, split)
    ensures Requests(s, history, sent, SafeCut(history, prior)) && sent != []
    ensures Dispatches(s, history, prior, split, bound, world, sent)
    ensures verdict.Accepted? <==> !world.rejects(|sent| - 1)
  {
    var span := DescribeSpan(history, prior, split, model, weigh);
    s := span;
    DescribedSnap(s, history, prior);
    DescribedSnap(s, history, split);
    var gaps;
    ghost var stops;
    verdict, gaps, stops := Dispatch(span, bound, world.counts, world.rejects);
    sent := gaps;
    if bound.Some? {
      assert ClimbsAll(span, bound.value, world, sent, stops);
    }
    LadderRequests(s, history, sent, SafeCut(history, prior));
  }
}
