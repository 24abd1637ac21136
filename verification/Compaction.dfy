/** The compaction boundary and the view of the history sent to the model. */
module Compaction {
  import opened Options
  import opened Bounds
  import opened Messages
  import opened Repair

  /** Cutting before index `i` separates no call from the message after it. */
  predicate SafeCut(ms: seq<Message>, i: nat)
    requires i <= |ms|
  {
    i == 0 || !HasCalls(ms[i - 1])
  }

  /** Move a cut backward until it is safe. */
  function Snap(ms: seq<Message>, i: nat): (r: nat)
    requires i <= |ms|
    ensures r <= i && SafeCut(ms, r)
    ensures forall j | r < j <= i :: !SafeCut(ms, j)
  {
    if i > 0 && HasCalls(ms[i - 1]) then Snap(ms, i - 1) else i
  }

  lemma {:induction false} SnapIsMonotone(ms: seq<Message>, i: nat, j: nat)
    requires i <= j <= |ms|
    ensures Snap(ms, i) <= Snap(ms, j)
  {
    assert SafeCut(ms, Snap(ms, i));
  }

  /** Where the verbatim tail begins, if the prefix before it is worth folding. */
  function SplitPoint(ms: seq<Message>, keepRecent: nat, minPrefix: nat): (r: Option<nat>)
    ensures r.Some? ==> minPrefix <= r.value <= |ms| && SafeCut(ms, r.value)
  {
    if |ms| <= minPrefix then None
    else
      var i := Snap(ms, Max(0, |ms| - keepRecent));
      if i < minPrefix then None else Some(i)
  }

  /** The split point is the largest safe cut that leaves `keepRecent` messages behind it, if
      there is one that leaves `minPrefix` before it. */
  lemma {:induction false} SplitPointIsLargest(ms: seq<Message>, keepRecent: nat, minPrefix: nat, r: nat)
    ensures SplitPoint(ms, keepRecent, minPrefix) == Some(r) <==>
      && minPrefix < |ms| && minPrefix <= r && (r == 0 || r + keepRecent <= |ms|) && r <= |ms| && SafeCut(ms, r)
      && forall j | r < j && j + keepRecent <= |ms| :: !SafeCut(ms, j)
  {
    if |ms| > minPrefix {
      var i := Snap(ms, Max(0, |ms| - keepRecent));
      assert SafeCut(ms, i);
    }
  }

  /** Compaction state: `summary` stands in for the first `through` messages. */
  datatype Boundary = Boundary(summary: Option<Message>, through: nat)

  const UNCOMPACTED := Boundary(None, 0)

  function SummaryMessage(text: string): Message
  {
    Message(User, Blocks([Text(text)]), NO_META)
  }

  /** The boundary recorded for a summary of the messages before `split`. */
  function Compacted(ms: seq<Message>, text: string, split: int): (b: Boundary)
    ensures b.through <= |ms|
  {
    Boundary(Some(SummaryMessage(text)), Max(0, Min(split, |ms|)))
  }

  /** Skill content; whether a text carries it is left to the caller. */
  predicate IsProtected(m: Message, skill: string -> bool)
  {
    && m.role.User?
    && match m.content
       case Str(text) => skill(text)
       case Blocks(blocks) => exists b :: b in blocks && b.Text? && skill(b.text)
  }

  function Protected(ms: seq<Message>, skill: string -> bool): (r: seq<Message>)
    ensures forall m | m in r :: m in ms && m.role.User?
  {
    if ms == [] then []
    else if IsProtected(ms[0], skill) then [ms[0]] + Protected(ms[1..], skill)
    else Protected(ms[1..], skill)
  }

  /** What is sent: skill content of the folded prefix, the summary, the tail. */
  function Effective(ms: seq<Message>, b: Boundary, skill: string -> bool): seq<Message>
  {
    if b.summary.Some? && b.through > 0 && ms != [] then
      var cut := Min(b.through, |ms|);
      Protected(ms[..cut], skill) + [b.summary.value] + ms[cut..]
    else ms
  }

  // ---- cuts keep exchanges whole -------------------------------------------------------

  predicate Asks(m: Message, r: Block)
  {
    exists c :: c in Calls(m) && Answers(c, r)
  }

  /** Every tool result of message `i` answers a call of the message before it. */
  predicate AnchoredAt(ms: seq<Message>, i: nat)
    requires i < |ms|
  {
    forall r | r in BlocksOf(ms[i]) && r.ToolResult? :: i > 0 && Asks(ms[i - 1], r)
  }

  predicate Anchored(ms: seq<Message>)
  {
    forall i: nat | i < |ms| :: AnchoredAt(ms, i)
  }

  /** Exchanges are whole: calls are answered at once and results have their call. */
  predicate Whole(ms: seq<Message>)
  {
    PairedInOrder(ms) && Anchored(ms)
  }

  /** Cutting at `i` leaves whole exchanges on both sides. */
  predicate CutsWhole(ms: seq<Message>, i: nat)
    requires i <= |ms|
  {
    Whole(ms[..i]) && Whole(ms[i..])
  }

  lemma {:induction false} AnchoredTail(ms: seq<Message>, i: nat)
    requires Anchored(ms) && i <= |ms| && SafeCut(ms, i)
    ensures Anchored(ms[i..])
  {
    forall k: nat | k < |ms[i..]| ensures AnchoredAt(ms[i..], k) {
      assert AnchoredAt(ms, i + k);
      assert ms[i..][k] == ms[i + k];
      assert k > 0 ==> ms[i..][k - 1] == ms[i + k - 1];
      assert k == 0 && i > 0 ==> Calls(ms[i - 1]) == [];
    }
  }

  lemma {:induction false} AnchoredFront(ms: seq<Message>, i: nat)
    requires Anchored(ms) && i <= |ms|
    ensures Anchored(ms[..i])
  {
    forall k: nat | k < |ms[..i]| ensures AnchoredAt(ms[..i], k) {
      assert AnchoredAt(ms, k);
    }
  }

  lemma {:induction false} PairedFront(ms: seq<Message>, i: nat)
    requires PairedInOrder(ms) && i <= |ms| && SafeCut(ms, i)
    ensures PairedInOrder(ms[..i])
  {
    var front := ms[..i];
    forall k | 0 <= k < |front| && HasCalls(front[k])
      ensures k + 1 < |front| && AnswersInOrder(Calls(front[k]), front[k + 1])
    {
      assert front[k] == ms[k] && k != i - 1;
    }
  }

  /** On a history of whole exchanges, a cut leaves whole exchanges on both sides
      exactly when it is safe. */
  lemma {:induction false} CutKeepsExchangesWholeIffSafe(ms: seq<Message>, i: nat)
    requires Whole(ms) && i <= |ms|
    ensures CutsWhole(ms, i) <==> SafeCut(ms, i)
  {
    if SafeCut(ms, i) {
      PairedFront(ms, i);
      PairedTail(ms, i);
      AnchoredFront(ms, i);
      AnchoredTail(ms, i);
    } else {
      assert HasCalls(ms[..i][i - 1]);
      assert !PairedInOrder(ms[..i]);
    }
  }

  /** The snapped cut is the largest cut not above the request that splits nothing. */
  lemma {:induction false} SnapIsLargestWholeCut(ms: seq<Message>, i: nat)
    requires Whole(ms) && i <= |ms|
    ensures CutsWhole(ms, Snap(ms, i))
    ensures forall j | Snap(ms, i) < j <= i :: !CutsWhole(ms, j)
  {
    CutKeepsExchangesWholeIffSafe(ms, Snap(ms, i));
    forall j | Snap(ms, i) < j <= i ensures !CutsWhole(ms, j) {
      assert !SafeCut(ms, j);
      CutKeepsExchangesWholeIffSafe(ms, j);
    }
  }

  // ---- the effective view --------------------------------------------------------------

  lemma {:induction false} ValidTail(ms: seq<Message>, i: nat)
    requires ValidForProvider(ms) && i <= |ms|
    ensures ValidForProvider(ms[i..])
  {
    var tail := ms[i..];
    forall k | 0 <= k < |tail| && HasCalls(tail[k])
      ensures k + 1 < |tail| && IsUserBlocks(tail[k + 1]) && ResultsCover(Calls(tail[k]), BlocksOf(tail[k + 1]))
    {
      assert tail[k] == ms[i + k];
      assert HasCalls(ms[i + k]);
      assert ms[i + k + 1] == tail[k + 1];
    }
  }

  lemma {:induction false} ValidBehindUsers(users: seq<Message>, ms: seq<Message>)
    requires ValidForProvider(ms) && forall m | m in users :: m.role.User?
    ensures ValidForProvider(users + ms)
  {
    if users == [] {
      assert users + ms == ms;
    } else {
      assert forall m | m in users[1..] :: m in users;
      ValidBehindUsers(users[1..], ms);
      assert users[0] in users;
      ValidCons(users[0], users[1..] + ms);
      assert users + ms == [users[0]] + (users[1..] + ms);
    }
  }

  /** Wherever the boundary lies, the effective view of a valid history is valid. */
  lemma {:induction false} EffectiveStaysValid(ms: seq<Message>, b: Boundary, skill: string -> bool)
    requires ValidForProvider(ms) && (b.summary.Some? ==> b.summary.value.role.User?)
    ensures ValidForProvider(Effective(ms, b, skill))
  {
    if b.summary.Some? && b.through > 0 && ms != [] {
      var cut := Min(b.through, |ms|);
      ValidTail(ms, cut);
      ValidBehindUsers(Protected(ms[..cut], skill) + [b.summary.value], ms[cut..]);
    }
  }

  /** After compaction at a split point, the effective view is provider-valid, its
      verbatim tail still holds whole exchanges, and so does the folded prefix. */
  lemma {:induction false} CompactionAtSplitPoint(ms: seq<Message>, keepRecent: nat, minPrefix: nat, text: string,
                                                  skill: string -> bool)
    requires Whole(ms) && ValidForProvider(ms) && SplitPoint(ms, keepRecent, minPrefix).Some?
    ensures var split := SplitPoint(ms, keepRecent, minPrefix).value;
      && CutsWhole(ms, split)
      && Compacted(ms, text, split).through == split
      && ValidForProvider(Effective(ms, Compacted(ms, text, split), skill))
  {
    var split := SplitPoint(ms, keepRecent, minPrefix).value;
    CutKeepsExchangesWholeIffSafe(ms, split);
    EffectiveStaysValid(ms, Compacted(ms, text, split), skill);
  }

  /** What comes behind the boundary is added to the view as it is. */
  lemma {:induction false} EffectiveGrows(ms: seq<Message>, tail: seq<Message>, b: Boundary, skill: string -> bool)
    requires b.through <= |ms|
    ensures Effective(ms + tail, b, skill) == Effective(ms, b, skill) + tail
  {
    if b.summary.Some? && b.through > 0 {
      var folded := Protected(ms[..b.through], skill) + [b.summary.value];
      assert (ms + tail)[..b.through] == ms[..b.through];
      assert (ms + tail)[b.through..] == ms[b.through..] + tail;
      assert folded + (ms[b.through..] + tail) == folded + ms[b.through..] + tail;
    }
  }

  /** Extending a paired history under an active compaction appends the repaired
      new messages to the effective view and changes nothing before them. */
  lemma {:induction false} ExtendGrowsEffectiveView(ms: seq<Message>, more: seq<Message>, b: Boundary,
                                                    skill: string -> bool)
    requires PairedInOrder(ms) && b.through <= |ms|
    ensures Effective(Repaired(ms + more), b, skill) == Effective(ms, b, skill) + Repaired(more)
    ensures PairedInOrder(Repaired(ms + more)) && b.through <= |Repaired(ms + more)|
  {
    PairedPrefixIsStable(ms, more);
    RepairedIsPaired(ms + more);
    EffectiveGrows(ms, Repaired(more), b, skill);
  }

  // ---- what the view holds ---------------------------------------------------------------

  /** `kept` are messages of `ms` that carry skill content, from ascending places. */
  ghost predicate Picks(ms: seq<Message>, skill: string -> bool, kept: seq<Message>, places: seq<nat>)
  {
    && |places| == |kept|
    && (forall k | 0 <= k < |places| :: places[k] < |ms| && kept[k] == ms[places[k]] && IsProtected(kept[k], skill))
    && (forall k, l | 0 <= k < l < |places| :: places[k] < places[l])
  }

  /** And they are all of them. */
  ghost predicate Selects(ms: seq<Message>, skill: string -> bool, kept: seq<Message>, places: seq<nat>)
  {
    Picks(ms, skill, kept, places) && forall i: nat | i < |ms| && IsProtected(ms[i], skill) :: i in places
  }

  function Shifted(places: seq<nat>): (r: seq<nat>)
    ensures |r| == |places| && forall k | 0 <= k < |places| :: r[k] == places[k] + 1
  {
    seq(|places|, k requires 0 <= k < |places| => places[k] + 1)
  }

  lemma {:induction false} SelectsPast(ms: seq<Message>, skill: string -> bool, kept: seq<Message>, places: seq<nat>)
    requires ms != [] && !IsProtected(ms[0], skill) && Selects(ms[1..], skill, kept, places)
    ensures Selects(ms, skill, kept, Shifted(places))
  {
    forall i: nat | i < |ms| && IsProtected(ms[i], skill) ensures i in Shifted(places) {
      ShiftedHas(ms, skill, kept, places, i);
    }
  }

  lemma {:induction false} ShiftedHas(ms: seq<Message>, skill: string -> bool, kept: seq<Message>, places: seq<nat>,
                                      i: nat)
    requires 0 < i < |ms| && IsProtected(ms[i], skill) && Selects(ms[1..], skill, kept, places)
    ensures i in Shifted(places)
  {
    assert ms[1..][i - 1] == ms[i] && i - 1 in places;
    var k :| 0 <= k < |places| && places[k] == i - 1;
    assert Shifted(places)[k] == i;
  }

  lemma {:induction false} PicksFirst(ms: seq<Message>, skill: string -> bool, kept: seq<Message>, places: seq<nat>)
    requires ms != [] && IsProtected(ms[0], skill) && Picks(ms[1..], skill, kept, places)
    ensures Picks(ms, skill, [ms[0]] + kept, [0] + Shifted(places))
  {
    var all := [0] + Shifted(places);
    forall k | 0 < k < |all| ensures all[k] < |ms| && ms[all[k]] == ([ms[0]] + kept)[k] {
      assert all[k] == places[k - 1] + 1;
    }
  }

  lemma {:induction false} SelectsFirst(ms: seq<Message>, skill: string -> bool, kept: seq<Message>, places: seq<nat>)
    requires ms != [] && IsProtected(ms[0], skill) && Selects(ms[1..], skill, kept, places)
    ensures Selects(ms, skill, [ms[0]] + kept, [0] + Shifted(places))
  {
    PicksFirst(ms, skill, kept, places);
    var all := [0] + Shifted(places);
    forall i: nat | i < |ms| && IsProtected(ms[i], skill) ensures i in all {
      if i == 0 {
        assert all[0] == 0;
      } else {
        ShiftedHas(ms, skill, kept, places, i);
        assert forall x | x in Shifted(places) :: x in all;
      }
    }
  }

  /** No message that carries skill content is lost, doubled or moved. */
  lemma {:induction false} ProtectedSelects(ms: seq<Message>, skill: string -> bool) returns (places: seq<nat>)
    ensures Selects(ms, skill, Protected(ms, skill), places)
  {
    if ms == [] {
      places := [];
    } else {
      var later := ProtectedSelects(ms[1..], skill);
      if IsProtected(ms[0], skill) {
        SelectsFirst(ms, skill, Protected(ms[1..], skill), later);
        places := [0] + Shifted(later);
      } else {
        SelectsPast(ms, skill, Protected(ms[1..], skill), later);
        places := Shifted(later);
      }
    }
  }

  /** With an active compaction the view is the skill messages of the folded prefix, the
      summary, and the rest of the history, which is never cut short; without one it is
      the history. */
  lemma {:induction false} EffectiveHolds(ms: seq<Message>, b: Boundary, skill: string -> bool)
    returns (kept: seq<Message>, places: seq<nat>)
    ensures b.summary.None? || b.through == 0 || ms == [] ==> Effective(ms, b, skill) == ms
    ensures b.summary.Some? && 0 < b.through <= |ms| ==>
      && Selects(ms[..b.through], skill, kept, places)
      && Effective(ms, b, skill) == kept + [b.summary.value] + ms[b.through..]
    ensures b.summary.Some? && b.through > |ms| > 0 ==>
      && Selects(ms, skill, kept, places)
      && Effective(ms, b, skill) == kept + [b.summary.value]
  {
    var cut := Min(b.through, |ms|);
    kept := Protected(ms[..cut], skill);
    places := ProtectedSelects(ms[..cut], skill);
    assert cut == |ms| ==> ms[..cut] == ms && ms[cut..] == [];
  }

  /** What marks a message as carrying skill content. */
  lemma {:induction false} ProtectedMeans(text: string, blocks: seq<Block>, k: nat, meta: Meta, skill: string -> bool)
    requires k < |blocks| && blocks[k].Text? && skill(blocks[k].text) && skill(text)
    ensures IsProtected(Message(User, Str(text), meta), skill)
    ensures IsProtected(Message(User, Blocks(blocks), meta), skill)
    ensures !IsProtected(Message(Assistant, Blocks(blocks), meta), skill)
    ensures !IsProtected(Message(User, Blocks([]), meta), skill)
  {
    assert blocks[k] in blocks;
  }

  /** The recorded summary is one text of a user's, and the boundary is the split point. */
  lemma {:induction false} CompactedMeans(ms: seq<Message>, text: string, split: nat)
    requires split <= |ms|
    ensures Compacted(ms, text, split) == Boundary(Some(Message(User, Blocks([Text(text)]), Meta("", ""))), split)
  {
  }
}
