/** The compaction request: which middle part of the span is left out, and the
    budget ladder that widens the gap until a request is accepted. */
module Planner {
  import opened Options
  import opened Messages
  import opened Compaction

  // ---- image placeholders --------------------------------------------------------------

  function ImagePlaceholder(mediaType: string, model: string): string
  {
    "[An image (" + mediaType + ") was shared earlier in this thread but is not visible to " + model + ".]"
  }

  function ReplaceImage(b: Block, model: string): Block
  {
    if b.Image? then Text(ImagePlaceholder(b.mediaType, model)) else b
  }

  function ReplaceImages(blocks: seq<Block>, model: string): (r: seq<Block>)
    ensures |r| == |blocks| && forall i | 0 <= i < |r| :: r[i] == ReplaceImage(blocks[i], model)
  {
    seq(|blocks|, i requires 0 <= i < |blocks| => ReplaceImage(blocks[i], model))
  }

  /** An image becomes text, also one level down, inside a tool result. */
  function BlockWithoutImages(b: Block, model: string): Block
  {
    if b.ToolResult? && b.body.Nested? then b.(body := Nested(ReplaceImages(b.body.inner, model)))
    else ReplaceImage(b, model)
  }

  function WithoutImages(m: Message, model: string): Message
  {
    if m.content.Str? then m
    else m.(content := Blocks(seq(|m.content.blocks|, i requires 0 <= i < |m.content.blocks| =>
      BlockWithoutImages(m.content.blocks[i], model))))
  }

  predicate BundlesResults(m: Message)
  {
    exists i :: 0 <= i < |BlocksOf(m)| && BlocksOf(m)[i].ToolResult?
  }

  /** The block is no image, and no tool result that holds one. */
  predicate ImageFree(b: Block)
  {
    !b.Image? && (b.ToolResult? && b.body.Nested? ==> forall inner | inner in b.body.inner :: !inner.Image?)
  }

  /** No image is left, whether on its own or in a tool result; nothing else changes, and a
      result stays the result of its call. */
  ghost predicate Redacts(b: Block, now: Block, model: string)
  {
    && ImageFree(now)
    && (ImageFree(b) ==> now == b)
    && (b.Image? ==> now == Text(ImagePlaceholder(b.mediaType, model)))
    && (b.ToolResult? ==> now.ToolResult? && now.(body := b.body) == b)
  }

  lemma {:induction false} BlockRedacts(b: Block, model: string)
    ensures Redacts(b, BlockWithoutImages(b, model), model)
  {
    if ImageFree(b) && b.ToolResult? && b.body.Nested? {
      assert ReplaceImages(b.body.inner, model) == b.body.inner;
    }
  }

  lemma {:induction false} WithoutImagesKeepsResults(m: Message, model: string)
    ensures BundlesResults(WithoutImages(m, model)) <==> BundlesResults(m)
    ensures var blocks, now := BlocksOf(m), BlocksOf(WithoutImages(m, model));
      |now| == |blocks| && forall i | 0 <= i < |blocks| :: Redacts(blocks[i], now[i], model)
  {
    var blocks, now := BlocksOf(m), BlocksOf(WithoutImages(m, model));
    forall i | 0 <= i < |blocks| ensures Redacts(blocks[i], now[i], model) {
      BlockRedacts(blocks[i], model);
    }
    assert forall i | 0 <= i < |blocks| :: now[i].ToolResult? <==> blocks[i].ToolResult?;
    if i :| 0 <= i < |blocks| && blocks[i].ToolResult? {
      assert now[i].ToolResult?;
    }
  }

  // ---- weights -------------------------------------------------------------------------

  function Prefix(w: seq<nat>, i: nat): nat
    requires i <= |w|
  {
    if i == 0 then 0 else Prefix(w, i - 1) + w[i - 1]
  }

  function Suffix(w: seq<nat>, i: nat): nat
    requires i <= |w|
    decreases |w| - i
  {
    if i == |w| then 0 else w[i] + Suffix(w, i + 1)
  }

  lemma {:induction false} PrefixPlusSuffix(w: seq<nat>, i: nat)
    requires i <= |w|
    ensures Prefix(w, i) + Suffix(w, i) == Prefix(w, |w|)
    decreases |w| - i
  {
    if i < |w| {
      PrefixPlusSuffix(w, i + 1);
    }
  }

  lemma {:induction false} PrefixGrows(w: seq<nat>, i: nat, j: nat)
    requires i <= j <= |w|
    ensures Prefix(w, i) <= Prefix(w, j)
    decreases j
  {
    if i < j {
      PrefixGrows(w, i, j - 1);
    }
  }

  lemma {:induction false} SuffixShrinks(w: seq<nat>, i: nat, j: nat)
    requires i <= j <= |w|
    ensures Suffix(w, j) <= Suffix(w, i)
  {
    PrefixGrows(w, i, j);
    PrefixPlusSuffix(w, i);
    PrefixPlusSuffix(w, j);
  }

  // ---- the middle gap ------------------------------------------------------------------

  /** Largest prefix whose weight stays within `half`. */
  function HeadEnd(w: seq<nat>, half: nat, i: nat := 0): (h: nat)
    requires i <= |w| && Prefix(w, i) <= half
    ensures i <= h <= |w| && Prefix(w, h) <= half
    ensures h == |w| || Prefix(w, h + 1) > half
    decreases |w| - i
  {
    if i < |w| && Prefix(w, i + 1) <= half then HeadEnd(w, half, i + 1) else i
  }

  /** Longest suffix, not reaching into the head, whose weight stays within `half`. */
  function TailStart(w: seq<nat>, half: nat, head: nat, t: nat): (r: nat)
    requires head <= t <= |w| && Suffix(w, t) <= half
    ensures head <= r <= t && Suffix(w, r) <= half
    ensures r == head || Suffix(w, r - 1) > half
  {
    if t > head && Suffix(w, t - 1) <= half then TailStart(w, half, head, t - 1) else t
  }

  /** Weights are whole numbers, so a fractional allowance acts as its floor. */
  function Allowance(target: real): nat
    requires target >= 0.0
  {
    (target / 2.0).Floor
  }

  method MiddleGap(w: seq<nat>, target: real) returns (head: nat, tail: nat)
    requires target >= 0.0
    ensures head == HeadEnd(w, Allowance(target)) && tail == TailStart(w, Allowance(target), head, |w|)
  {
    var half := target / 2.0;
    ghost var m := Allowance(target);
    head := 0;
    var acc := 0;
    while head < |w|
      invariant 0 <= head <= |w| && acc == Prefix(w, head) && acc <= m
      invariant HeadEnd(w, m, head) == HeadEnd(w, m)
    {
      FloorCompare(acc + w[head], half);
      if (acc + w[head]) as real > half {
        break;
      }
      acc := acc + w[head];
      head := head + 1;
    }
    tail, acc := |w|, 0;
    while tail > head
      invariant head <= tail <= |w| && acc == Suffix(w, tail) && acc <= m
      invariant TailStart(w, m, head, tail) == TailStart(w, m, head, |w|)
    {
      FloorCompare(acc + w[tail - 1], half);
      if (acc + w[tail - 1]) as real > half {
        break;
      }
      acc := acc + w[tail - 1];
      tail := tail - 1;
    }
  }

  lemma {:induction false} FloorCompare(x: int, y: real)
    ensures x as real > y <==> x > y.Floor
  {
  }

  /** Omit prefix messages `head .. tail`. */
  datatype Gap = Gap(head: int, tail: int) {
    function Size(): int { tail - head }

    /** This gap omits everything `other` omits. */
    predicate Covers(other: Gap)
    {
      other.Size() == 0 || (head <= other.head && other.tail <= tail)
    }

    /** It covers `other`, and unless they are the same it omits strictly more. */
    predicate Grows(other: Gap)
    {
      Covers(other) && (this == other || other.Size() < Size())
    }
  }

  /** The messages `prior .. split` of a history, reduced to what planning reads:
      which messages of the history carry calls, and of the span which carry tool
      results and how much each weighs. */
  datatype Span = Span(calls: seq<bool>, prior: nat, split: nat, weights: seq<nat>, bundles: seq<bool>) {
    predicate Wf()
    {
      prior <= split <= |calls| && |weights| == |bundles| == split - prior
    }

    predicate SafeAt(i: nat)
      requires i <= |calls|
    {
      i == 0 || !calls[i - 1]
    }

    function SnapTo(i: nat): (r: nat)
      requires i <= |calls|
      ensures r <= i && SafeAt(r) && forall j | r <= j < i :: calls[j]
    {
      if i > 0 && calls[i - 1] then SnapTo(i - 1) else i
    }

    function Total(): nat
    {
      Prefix(weights, |weights|)
    }

    /** The head edge, snapped on the whole history and translated back. */
    function SnapHead(head: nat): int
      requires Wf() && head <= |weights|
    {
      SnapTo(prior + head) - prior
    }

    /** The tail edge moves past messages that carry tool results. */
    function BumpTail(head: int, tail: nat): (t: nat)
      requires Wf() && tail <= |weights|
      ensures tail <= t <= |weights|
      ensures head < tail ==> t == |weights| || !bundles[t]
      ensures head < tail ==> forall k | tail <= k < t :: bundles[k]
      decreases |weights| - tail
    {
      if head < tail < |weights| && bundles[tail] then BumpTail(head, tail + 1) else tail
    }

    function NoGap(): Gap
    {
      Gap(|weights|, |weights|)
    }

    function GapFor(half: nat): Gap
      requires Wf()
    {
      var h := HeadEnd(weights, half);
      var head := SnapHead(h);
      Gap(head, BumpTail(head, TailStart(weights, half, h, |weights|)))
    }

    /** Neither end of the span separates a call from the message after it. */
    predicate Safe()
    {
      Wf() && SafeAt(prior) && SafeAt(split)
    }

    /** An allowance too small to keep everything. */
    predicate Lossy(half: nat)
    {
      2 * half < Total()
    }

    predicate Chosen(g: Gap, half: nat)
      requires Wf()
    {
      Lossy(half) && g == GapFor(half)
    }

    /** The gaps the planner can be in: none yet, or one chosen for some allowance. */
    ghost predicate Planned(g: Gap)
      requires Wf()
    {
      g == NoGap() || exists half :: Chosen(g, half)
    }

    /** Nothing is omitted, or both edges stand where no exchange is cut. */
    predicate WellEdged(g: Gap)
      requires Wf()
    {
      || g == NoGap()
      || (0 <= g.head < g.tail <= |weights| && SafeAt(prior + g.head) &&
          (g.tail == |weights| || !bundles[g.tail]))
    }

    /** A list index as slicing reads it: from the end when negative, clamped. */
    function Index(i: int): (k: nat)
      ensures k <= |weights| && (0 <= i <= |weights| ==> k == i)
    {
      if i > |weights| then |weights| else if i >= 0 then i else if |weights| + i >= 0 then |weights| + i else 0
    }

    function Kept(g: Gap): nat
    {
      Prefix(weights, Index(g.head)) + Suffix(weights, Index(g.tail))
    }
  }

  lemma {:induction false} SnapToMonotone(s: Span, i: nat, j: nat)
    requires i <= j <= |s.calls|
    ensures s.SnapTo(i) <= s.SnapTo(j)
  {
    var at := s.SnapTo(i) - 1;
    assert at < 0 || !s.calls[at];
  }

  lemma {:induction false} SnapHeadInRange(s: Span, head: nat)
    requires s.Safe() && head <= |s.weights|
    ensures 0 <= s.SnapHead(head) <= head && s.SafeAt(s.prior + s.SnapHead(head))
  {
    SnapToMonotone(s, s.prior, s.prior + head);
  }

  /** Slicing counts a negative index from the end and stops at both ends. */
  lemma {:induction false} IndexReads(s: Span, i: int)
    ensures 0 <= i <= |s.weights| ==> s.Index(i) == i
    ensures i > |s.weights| ==> s.Index(i) == |s.weights|
    ensures -|s.weights| <= i < 0 ==> s.Index(i) == |s.weights| + i
    ensures i < -|s.weights| ==> s.Index(i) == 0
  {
  }

  /** The head edge stays inside the span for every choice exactly when the prior
      boundary is a safe cut. */
  lemma {:induction false} HeadInRangeIffPriorSafe(s: Span)
    requires s.Wf()
    ensures (forall head: nat | head <= |s.weights| :: 0 <= s.SnapHead(head)) <==> s.SafeAt(s.prior)
  {
    if s.SafeAt(s.prior) {
      forall head: nat | head <= |s.weights| ensures 0 <= s.SnapHead(head) {
        SnapToMonotone(s, s.prior, s.prior + head);
      }
    } else {
      assert s.SnapHead(0) < 0;
    }
  }

  /** Where a chosen gap lies: inside the span, non-empty, light on both sides. */
  lemma {:induction false} GapShape(s: Span, half: nat)
    requires s.Safe() && s.Lossy(half)
    ensures var g := s.GapFor(half);
      && 0 <= g.head < g.tail <= |s.weights|
      && s.SafeAt(s.prior + g.head)
      && (g.tail == |s.weights| || !s.bundles[g.tail])
      && s.Kept(g) <= 2 * half
  {
    var h := HeadEnd(s.weights, half);
    var t := TailStart(s.weights, half, h, |s.weights|);
    SnapHeadInRange(s, h);
    PrefixPlusSuffix(s.weights, h);
    assert h < t;
    var g := s.GapFor(half);
    PrefixGrows(s.weights, g.head, h);
    SuffixShrinks(s.weights, t, g.tail);
  }

  lemma {:induction false} BumpMonotone(s: Span, head: int, t: nat, head': int, t': nat)
    requires s.Wf() && t <= t' <= |s.weights| && head < t && head' < t'
    ensures s.BumpTail(head, t) <= s.BumpTail(head', t')
    decreases t' - t
  {
    if t < t' && t < |s.weights| && s.bundles[t] {
      BumpMonotone(s, head, t + 1, head', t');
    } else if t == t' {
      BumpIgnoresHead(s, head, head', t);
    }
  }

  lemma {:induction false} BumpIgnoresHead(s: Span, head: int, head': int, t: nat)
    requires s.Wf() && t <= |s.weights| && head < t && head' < t
    ensures s.BumpTail(head, t) == s.BumpTail(head', t)
    decreases |s.weights| - t
  {
    if t < |s.weights| && s.bundles[t] {
      BumpIgnoresHead(s, head, head', t + 1);
    }
  }

  /** A smaller allowance widens the gap at both edges. */
  lemma {:induction false} GapAntitone(s: Span, half: nat, half': nat)
    requires s.Safe() && half' <= half && s.Lossy(half)
    ensures s.GapFor(half').head <= s.GapFor(half).head && s.GapFor(half).tail <= s.GapFor(half').tail
  {
    var w, n := s.weights, |s.weights|;
    var h, h' := HeadEnd(w, half), HeadEnd(w, half');
    var t, t' := TailStart(w, half, h, n), TailStart(w, half', h', n);
    if h < h' {
      PrefixGrows(w, h + 1, h');
      assert false;
    }
    SnapToMonotone(s, s.prior + h', s.prior + h);
    PrefixPlusSuffix(w, h);
    PrefixPlusSuffix(w, h');
    assert h < t && h' < t';
    if t' < t {
      SuffixShrinks(w, t', t - 1);
      assert false;
    }
    SnapHeadInRange(s, h);
    SnapHeadInRange(s, h');
    BumpMonotone(s, s.SnapHead(h), t, s.SnapHead(h'), t');
  }

  lemma {:induction false} WeightlessIsZero(w: seq<nat>, i: nat)
    requires i <= |w| && Prefix(w, |w|) == 0
    ensures Prefix(w, i) == 0 && Suffix(w, i) == 0
  {
    PrefixPlusSuffix(w, i);
  }

  lemma {:induction false} PlannedInRange(s: Span, g: Gap)
    requires s.Safe() && s.Planned(g)
    ensures 0 <= g.head <= g.tail <= |s.weights|
    ensures g != s.NoGap() ==> g.head < g.tail
  {
    if g != s.NoGap() {
      var half :| s.Chosen(g, half);
      GapShape(s, half);
    }
  }

  /** One widening step.  The counter's answer only enters through the allowance it
      leads to, which is below half of what is kept now: the new gap is again a
      planned one, omits everything omitted before, and if it differs it omits
      strictly more. */
  lemma {:induction false} WidenStep(s: Span, g: Gap, half: nat)
    requires s.Safe() && s.Planned(g) && 0 <= g.head <= g.tail <= |s.weights|
    requires 20 * half <= 9 * s.Kept(g)
    ensures s.Planned(s.GapFor(half)) && s.GapFor(half).Grows(g)
  {
    if s.Total() == 0 {
      assert forall h :: !s.Lossy(h);
      WeightlessGap(s, half);
    } else if g == s.NoGap() {
      assert s.Kept(g) == s.Total();
      assert s.Chosen(s.GapFor(half), half);
      GapShape(s, half);
    } else {
      var before :| s.Chosen(g, before);
      WidenChosen(s, before, half);
    }
  }

  lemma {:induction false} WidenChosen(s: Span, before: nat, half: nat)
    requires s.Safe() && s.Lossy(before) && 20 * half <= 9 * s.Kept(s.GapFor(before))
    ensures s.Planned(s.GapFor(half)) && s.GapFor(half).Grows(s.GapFor(before))
  {
    GapShape(s, before);
    assert half <= before;
    GapAntitone(s, before, half);
    assert s.Chosen(s.GapFor(half), half);
    GapShape(s, half);
  }

  /** With nothing to weigh the planner never leaves the empty gap. */
  lemma {:induction false} WeightlessGap(s: Span, half: nat)
    requires s.Safe() && s.Total() == 0
    ensures s.GapFor(half) == s.NoGap()
  {
    var h := HeadEnd(s.weights, half);
    if h < |s.weights| {
      WeightlessIsZero(s.weights, h + 1);
    }
  }

  // ---- no exchange is split ------------------------------------------------------------

  /** The span describes this history. */
  ghost predicate Describes(s: Span, history: seq<Message>)
    requires s.Wf()
  {
    && |s.calls| == |history|
    && (forall i | 0 <= i < |history| :: CallsAt(s, history, i))
    && (forall k | 0 <= k < |s.bundles| :: BundlesAt(s, history, k))
  }

  ghost predicate CallsAt(s: Span, history: seq<Message>, i: nat)
    requires i < |s.calls| == |history|
  {
    s.calls[i] == HasCalls(history[i])
  }

  ghost predicate BundlesAt(s: Span, history: seq<Message>, k: nat)
    requires s.Wf() && |s.calls| == |history| && k < |s.bundles|
  {
    s.bundles[k] == BundlesResults(history[s.prior + k])
  }

  /** Safety and snapping read off the description are those of the history. */
  lemma {:induction false} DescribedSnap(s: Span, history: seq<Message>, i: nat)
    requires s.Wf() && Describes(s, history) && i <= |history|
    ensures s.SafeAt(i) <==> SafeCut(history, i)
    ensures s.SnapTo(i) == Snap(history, i)
  {
    if i > 0 {
      assert CallsAt(s, history, i - 1);
      DescribedSnap(s, history, i - 1);
    }
  }

  /** A message without results comes after one without calls. */
  ghost predicate AnsweredNext(ms: seq<Message>)
  {
    forall at: nat {:trigger BundlesResults(ms[at])} | 0 < at < |ms| && !BundlesResults(ms[at]) :: SafeCut(ms, at)
  }

  lemma {:induction false} PairedIsAnsweredNext(ms: seq<Message>)
    requires PairedInOrder(ms)
    ensures AnsweredNext(ms)
  {
    forall at: nat | 0 < at < |ms| && !BundlesResults(ms[at]) ensures SafeCut(ms, at) {
      ResultsFollowCalls(ms, at);
    }
  }

  lemma {:induction false} TailEdgeIsSafe(s: Span, history: seq<Message>, tail: nat)
    requires s.Safe() && Describes(s, history) && AnsweredNext(history)
    requires 0 < tail <= |s.weights| && (tail == |s.weights| || !s.bundles[tail])
    ensures SafeCut(history, s.prior + tail)
  {
    if tail == |s.weights| {
      assert s.prior + tail == s.split;
      DescribedSnap(s, history, s.split);
    } else {
      assert BundlesAt(s, history, tail);
    }
  }

  lemma {:induction false} EdgesAreSafe(s: Span, history: seq<Message>, g: Gap)
    requires s.Safe() && Describes(s, history) && PairedInOrder(history) && s.WellEdged(g)
    ensures 0 <= s.prior + g.head <= s.prior + g.tail <= |history|
    ensures SafeCut(history, s.prior + g.head) && SafeCut(history, s.prior + g.tail)
  {
    PairedIsAnsweredNext(history);
    EdgesFollow(s, history, g);
  }

  lemma {:induction false} EdgesFollow(s: Span, history: seq<Message>, g: Gap)
    requires s.Safe() && Describes(s, history) && AnsweredNext(history) && s.WellEdged(g)
    ensures 0 <= s.prior + g.head <= s.prior + g.tail <= |history|
    ensures SafeCut(history, s.prior + g.head) && SafeCut(history, s.prior + g.tail)
  {
    if g == s.NoGap() {
      HeadEdgeIsSafe(s, history, |s.weights|);
    } else {
      HeadEdgeIsSafe(s, history, g.head);
      TailEdgeIsSafe(s, history, g.tail);
    }
  }

  lemma {:induction false} HeadEdgeIsSafe(s: Span, history: seq<Message>, head: int)
    requires s.Safe() && Describes(s, history) && 0 <= s.prior + head <= |history| && s.SafeAt(s.prior + head)
    ensures SafeCut(history, s.prior + head)
  {
    DescribedSnap(s, history, s.prior + head);
  }

  lemma {:induction false} PlannedIsWellEdged(s: Span, g: Gap)
    requires s.Safe() && s.Planned(g)
    ensures s.WellEdged(g)
  {
    if g != s.NoGap() {
      var half :| s.Chosen(g, half);
      GapShape(s, half);
    }
  }

  lemma {:induction false} ResultsFollowCalls(ms: seq<Message>, at: nat)
    requires PairedInOrder(ms) && 0 < at < |ms| && !BundlesResults(ms[at])
    ensures SafeCut(ms, at)
  {
  }

  /** On a history of whole exchanges both edges of every planned gap are cuts that
      keep each exchange whole. */
  lemma {:induction false} GapKeepsExchangesWhole(s: Span, history: seq<Message>, g: Gap)
    requires s.Safe() && Describes(s, history) && s.WellEdged(g) && Whole(history)
    ensures 0 <= s.prior + g.head <= s.prior + g.tail <= |history|
    ensures CutsWhole(history, s.prior + g.head) && CutsWhole(history, s.prior + g.tail)
  {
    WholeEdges(s, history, g);
    TwoCuts(history, s.prior + g.head, s.prior + g.tail);
  }

  lemma {:induction false} TwoCuts(history: seq<Message>, a: nat, b: nat)
    requires Whole(history) && a <= b <= |history| && SafeCut(history, a) && SafeCut(history, b)
    ensures CutsWhole(history, a) && CutsWhole(history, b)
  {
    CutKeepsExchangesWholeIffSafe(history, a);
    CutKeepsExchangesWholeIffSafe(history, b);
  }

  lemma {:induction false} WholeEdges(s: Span, history: seq<Message>, g: Gap)
    requires s.Safe() && Describes(s, history) && s.WellEdged(g) && Whole(history)
    ensures 0 <= s.prior + g.head <= s.prior + g.tail <= |history|
    ensures SafeCut(history, s.prior + g.head) && SafeCut(history, s.prior + g.tail)
  {
    EdgesAreSafe(s, history, g);
  }

  // ---- the ladder ----------------------------------------------------------------------

  const MAX_FIT_ATTEMPTS := 6

  /** From the characters kept, the budget and the count to the characters to keep. */
  type Aim = (nat, nat, nat) -> real

  /** However much was counted over budget, at most nine tenths are kept. */
  ghost predicate Shrinks(aim: Aim)
  {
    forall kept: nat, budget: nat, counted: nat | counted > budget ::
      0.0 <= aim(kept, budget, counted) && 20 * Allowance(aim(kept, budget, counted)) <= 9 * kept
  }

  /** The characters to keep after a request that counted `counted` tokens. */
  function TargetChars(kept: nat, budget: nat, counted: nat): (target: real)
    ensures counted > budget ==> 0.0 <= target && 20 * Allowance(target) <= 9 * kept
  {
    if counted <= budget then kept as real
    else
      var share := kept as real * budget as real / counted as real;
      ShareIsLess(kept as real, budget as real, counted as real);
      NineTenths(share, kept);
      share * 0.9
  }

  lemma {:induction false} TargetShrinks()
    ensures Shrinks(TargetChars)
  {
  }

  lemma {:induction false} ShareIsLess(k: real, b: real, c: real)
    requires 0.0 <= k && 0.0 <= b < c
    ensures 0.0 <= k * b / c <= k
  {
    var q := k * b / c;
    assert q * c == k * b;
    LessByFactor(k, b, c);
    if q < 0.0 {
      NegativeProduct(q, c);
    }
    if q > k {
      LargerProduct(q, k, c);
    }
  }

  lemma {:induction false} LessByFactor(k: real, b: real, c: real)
    requires 0.0 <= k && 0.0 <= b < c
    ensures 0.0 <= k * b <= k * c
  {
  }

  lemma {:induction false} NegativeProduct(q: real, c: real)
    requires q < 0.0 < c
    ensures q * c < 0.0
  {
  }

  lemma {:induction false} LargerProduct(q: real, k: real, c: real)
    requires q > k && c > 0.0
    ensures q * c > k * c
  {
  }

  lemma {:induction false} NineTenths(share: real, kept: nat)
    requires 0.0 <= share <= kept as real
    ensures 0.0 <= share * 0.9 && 20 * Allowance(share * 0.9) <= 9 * kept
  {
    var half := share * 0.9 / 2.0;
    assert half.Floor as real <= half;
    assert 20.0 * half <= 9.0 * kept as real;
  }

  /** Over budget, what is kept shrinks in proportion and by a tenth more. */
  lemma {:induction false} TargetMeans(kept: nat, budget: nat, counted: nat)
    requires counted > budget
    ensures 10.0 * (TargetChars(kept, budget, counted) * counted as real) == 9.0 * (kept as real * budget as real)
  {
    var share := kept as real * budget as real / counted as real;
    QuotientTimes(kept as real * budget as real, counted as real);
    assert share * counted as real == kept as real * budget as real;
    assert TargetChars(kept, budget, counted) == share * 0.9;
    TenthsTimes(share, counted as real);
  }

  lemma {:induction false} QuotientTimes(x: real, y: real)
    requires y > 0.0
    ensures (x / y) * y == x
  {
  }

  lemma {:induction false} TenthsTimes(x: real, y: real)
    ensures 10.0 * ((x * 0.9) * y) == 9.0 * (x * y)
  {
  }

  method SkipResults(s: Span, head: int, start: nat) returns (tail: nat)
    requires s.Wf() && start <= |s.weights|
    ensures tail == s.BumpTail(head, start)
  {
    tail := start;
    while head < tail < |s.weights| && s.bundles[tail]
      invariant start <= tail <= |s.weights| && s.BumpTail(head, tail) == s.BumpTail(head, start)
      decreases |s.weights| - tail
    {
      tail := tail + 1;
    }
  }

  /** The gap that keeps about `target` characters. */
  method NextGap(s: Span, target: real) returns (g: Gap)
    requires s.Wf() && target >= 0.0
    ensures g == s.GapFor(Allowance(target))
  {
    var head, tail := MiddleGap(s.weights, target);
    var snapped := s.SnapHead(head);
    tail := SkipResults(s, snapped, tail);
    g := Gap(snapped, tail);
  }

  lemma {:induction false} GrowsTransitively(a: Gap, b: Gap, c: Gap)
    requires a.Size() >= 0 && b.Grows(a) && c.Grows(b)
    ensures c.Grows(a) && (a != b ==> a.Size() < c.Size())
  {
  }

  /** From a gap and a count over budget to the gap tried next. */
  type Chooser = (Gap, nat) -> Gap

  ghost function Wider(s: Span, aim: Aim, budget: nat): Chooser
    requires s.Wf() && Shrinks(aim)
  {
    (g: Gap, counted: nat) => if counted > budget then s.GapFor(Allowance(aim(s.Kept(g), budget, counted))) else g
  }

  /** The gap after at most `attempts` counts, and the number of counts so far: it stops
      where a count fits the budget or where the gap no longer moves. */
  function Widen(next: Chooser, budget: nat, counts: nat -> nat, calls: nat, g: Gap, attempts: nat): (Gap, nat)
    decreases attempts, g
  {
    if attempts == 0 then (g, calls)
    else if counts(calls) <= budget || next(g, counts(calls)) == g then (g, calls + 1)
    else Widen(next, budget, counts, calls + 1, next(g, counts(calls)), attempts - 1)
  }

  /** Widening counts at most `attempts` times and stops at the first gap that fits the budget or
      does not move; every count before was over budget. */
  lemma {:induction false} WidenEnds(next: Chooser, budget: nat, counts: nat -> nat, calls: nat, g: Gap, attempts: nat)
    ensures var (g', calls') := Widen(next, budget, counts, calls, g, attempts);
      && calls <= calls' <= calls + attempts
      && (forall i: nat | calls <= i < calls' - 1 :: counts(i) > budget)
      && (attempts > 0 ==> calls' > calls)
      && (attempts > 0 ==>
            counts(calls' - 1) <= budget || next(g', counts(calls' - 1)) == g' || calls' == calls + attempts)
      && (attempts == 0 || counts(calls) <= budget ==> g' == g)
    decreases attempts
  {
    if attempts > 0 && counts(calls) > budget && next(g, counts(calls)) != g {
      WidenEnds(next, budget, counts, calls + 1, next(g, counts(calls)), attempts - 1);
    }
  }

  /** Every gap chosen over budget is again a good one, and it grows. */
  ghost predicate Advances(next: Chooser, budget: nat, good: Gap -> bool)
  {
    forall g, counted: nat | good(g) && counted > budget ::
      good(next(g, counted)) && next(g, counted).Grows(g) && g.Size() >= 0
  }

  lemma {:induction false} WidenGrows(next: Chooser, budget: nat, counts: nat -> nat, calls: nat, g: Gap, attempts: nat,
                                      good: Gap -> bool)
    requires Advances(next, budget, good) && good(g)
    ensures var r := Widen(next, budget, counts, calls, g, attempts); good(r.0) && r.0.Grows(g)
    decreases attempts
  {
    if attempts > 0 && counts(calls) > budget && next(g, counts(calls)) != g {
      var g' := next(g, counts(calls));
      WidenGrows(next, budget, counts, calls + 1, g', attempts - 1, good);
      GrowsTransitively(g, g', Widen(next, budget, counts, calls + 1, g', attempts - 1).0);
    }
  }

  ghost function IsPlanned(s: Span): Gap -> bool
    requires s.Wf()
  {
    (g: Gap) => s.Planned(g)
  }

  /** Whatever the counter answers, the span left out only grows. */
  lemma {:induction false} WiderAdvances(s: Span, aim: Aim, budget: nat)
    requires s.Safe() && Shrinks(aim)
    ensures Advances(Wider(s, aim, budget), budget, IsPlanned(s))
  {
    forall g, counted: nat | s.Planned(g) && counted > budget
      ensures var g' := Wider(s, aim, budget)(g, counted); s.Planned(g') && g'.Grows(g) && g.Size() >= 0
    {
      PlannedInRange(s, g);
      WidenStep(s, g, Allowance(aim(s.Kept(g), budget, counted)));
    }
  }

  method ChooseNext(s: Span, aim: Aim, budget: nat, g: Gap, counted: nat) returns (g': Gap)
    requires s.Wf() && Shrinks(aim) && counted > budget
    ensures g' == Wider(s, aim, budget)(g, counted)
  {
    g' := NextGap(s, aim(s.Kept(g), budget, counted));
  }

  /** Widen until the counter is satisfied, the gap stalls, or the attempts run out.
      `counts` are the answers of the counter, arbitrary and in call order. */
  method WidenUntilFits(s: Span, aim: Aim, budget: nat, counts: nat -> nat, calls: nat, start: Gap, attempts: nat)
    returns (g: Gap, calls': nat)
    requires s.Wf() && Shrinks(aim)
    ensures (g, calls') == Widen(Wider(s, aim, budget), budget, counts, calls, start, attempts)
  {
    g, calls' := start, calls;
    ghost var next := Wider(s, aim, budget);
    for attempt := 0 to attempts
      invariant Widen(next, budget, counts, calls', g, attempts - attempt) ==
                Widen(next, budget, counts, calls, start, attempts)
    {
      var counted := counts(calls');
      calls' := calls' + 1;
      if counted <= budget {
        return;
      }
      var g' := ChooseNext(s, aim, budget, g, counted);
      if g' == g {
        return;
      }
      g := g';
    }
  }

  /** What is left of the bound on the rung reached after `i` rungs. */
  function RungBudget(bound: nat, i: nat): nat
    requires i < 10
  {
    bound * (10 - i) / 10
  }

  /** The rungs go down from the whole bound to its tenth part, a tenth of the bound at a time. */
  lemma {:induction false} RungsDescend(bound: nat, i: nat)
    requires i < 10
    ensures RungBudget(bound, 0) == bound
    ensures 10 * RungBudget(bound, i) <= bound * (10 - i) < 10 * RungBudget(bound, i) + 10
    ensures i > 0 ==> RungBudget(bound, i) <= RungBudget(bound, i - 1)
  {
    if i > 0 {
      assert bound * (10 - i) + bound == bound * (10 - (i - 1));
    }
  }

  datatype Dispatched = Accepted | Rejected

  /** What was sent grows: each request omits all that the earlier ones omitted, and
      strictly more. */
  ghost predicate Growing(sent: seq<Gap>)
  {
    forall i, j | 0 <= i < j < |sent| :: sent[j].Covers(sent[i]) && sent[i].Size() < sent[j].Size()
  }

  ghost predicate AllPlanned(s: Span, sent: seq<Gap>)
    requires s.Wf()
  {
    forall g | g in sent :: s.Planned(g) && s.WellEdged(g)
  }

  /** Where the planner stands after each rung: the gap and the number of counts. */
  type Stops = seq<(Gap, nat)>

  ghost predicate NextStop(s: Span, aim: Aim, bound: nat, counts: nat -> nat, here: (Gap, nat), i: nat, next: (Gap,
                           nat))
  {
    && s.Wf() && Shrinks(aim) && i < 10
    && next == Widen(Wider(s, aim, RungBudget(bound, i)), RungBudget(bound, i), counts, here.1, here.0,
                     MAX_FIT_ATTEMPTS)
  }

  ghost predicate StopAt(s: Span, aim: Aim, bound: nat, counts: nat -> nat, stops: Stops, i: nat)
    requires 0 < i < |stops|
  {
    NextStop(s, aim, bound, counts, stops[i - 1], i - 1, stops[i])
  }

  /** Each stop is the widening of the one before for the rung's budget. */
  ghost predicate Climbed(s: Span, aim: Aim, bound: nat, counts: nat -> nat, stops: Stops)
  {
    && 0 < |stops| <= 11 && stops[0] == (s.NoGap(), 0)
    && forall i | 0 < i < |stops| :: StopAt(s, aim, bound, counts, stops, i)
  }

  /** The gaps sent: the first rung's, and each later one that moved. */
  ghost function Moves(stops: Stops): seq<Gap>
  {
    if |stops| < 2 then []
    else
      var before, n := Moves(stops[..|stops| - 1]), |stops| - 1;
      if before != [] && stops[n].0 == stops[n - 1].0 then before else before + [stops[n].0]
  }

  lemma {:induction false} NextMove(stops: Stops, next: (Gap, nat))
    requires stops != []
    ensures var before := Moves(stops);
      Moves(stops + [next]) == if before != [] && next.0 == stops[|stops| - 1].0 then before else before + [next.0]
  {
    assert (stops + [next])[..|stops|] == stops;
  }

  lemma {:induction false} ClimbOn(s: Span, aim: Aim, bound: nat, counts: nat -> nat, stops: Stops, next: (Gap, nat))
    requires Climbed(s, aim, bound, counts, stops) && |stops| <= 10
    requires NextStop(s, aim, bound, counts, stops[|stops| - 1], |stops| - 1, next)
    ensures Climbed(s, aim, bound, counts, stops + [next])
  {
    var all := stops + [next];
    forall i | 0 < i < |all| ensures StopAt(s, aim, bound, counts, all, i) {
      if i < |stops| {
        assert StopAt(s, aim, bound, counts, stops, i);
      }
    }
  }

  // ---- the requests of a ladder --------------------------------------------------------------------

  lemma {:induction false} TwoGaps(earlier: Gap, last: Gap, g: Gap)
    requires earlier.Size() >= 0 && g.Grows(last) && g != last
    requires earlier == last || (last.Covers(earlier) && earlier.Size() < last.Size())
    ensures g.Covers(earlier) && earlier.Size() < g.Size()
  {
  }

  lemma {:induction false} GrowingAppend(sent: seq<Gap>, g: Gap)
    requires Growing(sent) && (forall e | e in sent :: e.Size() >= 0)
    requires sent != [] ==> g.Grows(sent[|sent| - 1]) && g != sent[|sent| - 1]
    ensures Growing(sent + [g])
  {
    forall i | 0 <= i < |sent| ensures g.Covers(sent[i]) && sent[i].Size() < g.Size() {
      assert sent[i] in sent;
      TwoGaps(sent[i], sent[|sent| - 1], g);
    }
  }

  lemma {:induction false} PlannedSizes(s: Span, sent: seq<Gap>)
    requires s.Safe() && AllPlanned(s, sent)
    ensures forall e | e in sent :: e.Size() >= 0
  {
    forall e | e in sent ensures e.Size() >= 0 {
      PlannedInRange(s, e);
    }
  }

  /** The planner stands at a planned gap, the last one sent if any was. */
  ghost predicate Ladder(s: Span, sent: seq<Gap>, g: Gap)
  {
    && s.Safe() && s.Planned(g) && AllPlanned(s, sent) && Growing(sent)
    && (sent != [] ==> g == sent[|sent| - 1])
  }

  lemma {:induction false} LadderStep(s: Span, sent: seq<Gap>, at: Gap, g: Gap)
    requires Ladder(s, sent, at) && s.Planned(g) && g.Grows(at)
    ensures Ladder(s, if sent != [] && g == at then sent else sent + [g], g)
  {
    if sent == [] || g != at {
      LadderMove(s, sent, g);
    }
  }

  lemma {:induction false} LadderMove(s: Span, sent: seq<Gap>, g: Gap)
    requires s.Safe() && s.Planned(g) && AllPlanned(s, sent) && Growing(sent)
    requires sent != [] ==> g.Grows(sent[|sent| - 1]) && g != sent[|sent| - 1]
    ensures Ladder(s, sent + [g], g)
  {
    PlannedSizes(s, sent);
    GrowingAppend(sent, g);
    PlannedAppend(s, sent, g);
  }

  lemma {:induction false} PlannedAppend(s: Span, sent: seq<Gap>, g: Gap)
    requires s.Safe() && AllPlanned(s, sent) && s.Planned(g)
    ensures AllPlanned(s, sent + [g])
  {
    PlannedIsWellEdged(s, g);
  }

  /** Given a safe prior boundary, whatever the counter answered: each request of the
      ladder omits all that the earlier ones omitted and strictly more, and its gap is one
      the planner can be in. */
  lemma {:induction false} ClimbedIsLadder(s: Span, aim: Aim, bound: nat, counts: nat -> nat, stops: Stops)
    requires s.Safe() && Climbed(s, aim, bound, counts, stops)
    ensures Ladder(s, Moves(stops), stops[|stops| - 1].0)
    decreases |stops|
  {
    var n := |stops| - 1;
    if n == 0 {
      assert s.Planned(s.NoGap());
    } else {
      var before := stops[..n];
      forall i | 0 < i < n ensures StopAt(s, aim, bound, counts, before, i) {
        assert StopAt(s, aim, bound, counts, stops, i);
      }
      ClimbedIsLadder(s, aim, bound, counts, before);
      var here, next := stops[n - 1], stops[n];
      assert StopAt(s, aim, bound, counts, stops, n);
      StopGrows(s, aim, bound, counts, here, n - 1, next);
      LadderStep(s, Moves(before), here.0, next.0);
    }
  }

  lemma {:induction false} StopGrows(s: Span, aim: Aim, bound: nat, counts: nat -> nat, here: (Gap, nat), i: nat,
                                     next: (Gap, nat))
    requires s.Safe() && s.Planned(here.0) && NextStop(s, aim, bound, counts, here, i, next)
    ensures s.Planned(next.0) && next.0.Grows(here.0)
  {
    var budget := RungBudget(bound, i);
    WiderAdvances(s, aim, budget);
    WidenGrows(Wider(s, aim, budget), budget, counts, here.1, here.0, MAX_FIT_ATTEMPTS, IsPlanned(s));
  }

  // ---- climbing it -----------------------------------------------------------------------------------

  predicate AllRejected(rejects: nat -> bool, n: nat)
  {
    forall i: nat | i < n :: rejects(i)
  }

  /** The planner stands at `at` after `rung` rungs; everything sent was rejected. */
  ghost predicate Standing(s: Span, aim: Aim, bound: nat, rung: nat, counts: nat -> nat, rejects: nat -> bool,
                           calls: nat,
                           sent: seq<Gap>, at: Gap, stops: Stops)
  {
    && Climbed(s, aim, bound, counts, stops) && sent == Moves(stops)
    && |stops| == rung + 1 && stops[rung] == (at, calls)
    && AllRejected(rejects, |sent|) && |sent| <= rung && (rung > 0 ==> sent != [])
  }

  /** One rung: widen for its budget; a gap that did not move is not sent again. */
  method Climb(s: Span, aim: Aim, bound: nat, rung: nat, counts: nat -> nat, calls: nat, sent: seq<Gap>, at: Gap,
               ghost stops: Stops)
    returns (g: Gap, calls': nat, sent': seq<Gap>)
    requires s.Wf() && Shrinks(aim) && Climbed(s, aim, bound, counts, stops) && |stops| == rung + 1 <= 10
    requires sent == Moves(stops) && stops[rung] == (at, calls)
    ensures Climbed(s, aim, bound, counts, stops + [(g, calls')]) && sent' == Moves(stops + [(g, calls')])
    ensures sent' == if sent != [] && g == at then sent else sent + [g]
  {
    g, calls' := WidenUntilFits(s, aim, RungBudget(bound, rung), counts, calls, at, MAX_FIT_ATTEMPTS);
    ClimbOn(s, aim, bound, counts, stops, (g, calls'));
    NextMove(stops, (g, calls'));
    sent' := if sent == [] || g != at then sent + [g] else sent;
  }

  lemma {:induction false} OneMoreRejected(rejects: nat -> bool, n: nat)
    requires AllRejected(rejects, n) && rejects(n)
    ensures AllRejected(rejects, n + 1)
  {
  }

  method OneRung(s: Span, aim: Aim, bound: nat, rung: nat, counts: nat -> nat, rejects: nat -> bool, calls: nat,
                 sent: seq<Gap>, at: Gap, ghost stops: Stops)
    returns (g: Gap, calls': nat, sent': seq<Gap>, r: Dispatched)
    requires s.Wf() && Shrinks(aim) && rung < 10
    requires Standing(s, aim, bound, rung, counts, rejects, calls, sent, at, stops)
    ensures Climbed(s, aim, bound, counts, stops + [(g, calls')]) && sent' == Moves(stops + [(g, calls')])
    ensures r.Rejected? ==> Standing(s, aim, bound, rung + 1, counts, rejects, calls', sent', g, stops + [(g, calls')])
    ensures r.Accepted? ==> 0 < |sent'| <= 10 && AllRejected(rejects, |sent'| - 1) && !rejects(|sent'| - 1)
  {
    g, calls', sent' := Climb(s, aim, bound, rung, counts, calls, sent, at, stops);
    r := Rejected;
    if |sent'| > |sent| {
      if rejects(|sent|) {
        OneMoreRejected(rejects, |sent|);
      } else {
        r := Accepted;
      }
    }
  }

  method ClimbLadder(s: Span, aim: Aim, bound: nat, counts: nat -> nat, rejects: nat -> bool)
    returns (r: Dispatched, sent: seq<Gap>, ghost stops: Stops)
    requires s.Wf() && Shrinks(aim)
    ensures 1 <= |sent| <= 10 && AllRejected(rejects, |sent| - 1) && (r.Accepted? <==> !rejects(|sent| - 1))
    ensures Climbed(s, aim, bound, counts, stops) && sent == Moves(stops) && (r.Rejected? ==> |stops| == 11)
  {
    var g, calls := s.NoGap(), 0;
    sent, stops, r := [], [(g, calls)], Rejected;
    for rung := 0 to 10
      invariant Standing(s, aim, bound, rung, counts, rejects, calls, sent, g, stops) && r.Rejected?
    {
      g, calls, sent, r := OneRung(s, aim, bound, rung, counts, rejects, calls, sent, g, stops);
      stops := stops + [(g, calls)];
      if r.Accepted? {
        return;
      }
    }
  }

  /** The budget ladder against an arbitrary counter and an arbitrary provider:
      `rejects` are its verdicts, in order.  Without a bound there is one attempt. */
  method Dispatch(s: Span, bound: Option<nat>, counts: nat -> nat, rejects: nat -> bool)
    returns (r: Dispatched, sent: seq<Gap>, ghost stops: Stops)
    requires s.Wf()
    ensures 1 <= |sent| <= 10 && AllRejected(rejects, |sent| - 1) && (r.Accepted? <==> !rejects(|sent| - 1))
    ensures bound.None? ==> sent == [s.NoGap()]
    ensures bound.Some? ==>
      Climbed(s, TargetChars, bound.value, counts, stops) && sent == Moves(stops) && (r.Rejected? ==> |stops| == 11)
    ensures s.Safe() ==> Ladder(s, sent, sent[|sent| - 1])
  {
    if bound.None? {
      if s.Safe() {
        OneRequest(s);
      }
      return if rejects(0) then Rejected else Accepted, [s.NoGap()], [];
    }
    TargetShrinks();
    r, sent, stops := ClimbLadder(s, TargetChars, bound.value, counts, rejects);
    if s.Safe() {
      ClimbedIsLadder(s, TargetChars, bound.value, counts, stops);
    }
  }

  lemma {:induction false} OneRequest(s: Span)
    requires s.Safe()
    ensures Ladder(s, [s.NoGap()], s.NoGap())
  {
    assert s.Planned(s.NoGap());
  }
}
