/** Applying a recipe to one file: bottom-up in-place editing is the simultaneous splice
    over original coordinates, except where an identifier decides a tie. */
module Applying {
  import opened Options
  import opened Lines
  import opened Recipes
  import opened Splicing

  // ---- the processing order ------------------------------------------------------------------

  /** Code-point order on identifiers. */
  predicate LexLeq(a: string, b: string)
  {
    a == [] || (b != [] && (a[0] < b[0] || (a[0] == b[0] && LexLeq(a[1..], b[1..]))))
  }

  lemma {:induction false} LexTotal(a: string, b: string)
    ensures LexLeq(a, b) || LexLeq(b, a)
    ensures LexLeq(a, b) && LexLeq(b, a) ==> a == b
  {
    if a != [] && b != [] && a[0] == b[0] {
      LexTotal(a[1..], b[1..]);
      assert a == [a[0]] + a[1..] && b == [b[0]] + b[1..];
    }
  }

  lemma {:induction false} LexTransitive(a: string, b: string, c: string)
    requires LexLeq(a, b) && LexLeq(b, c)
    ensures LexLeq(a, c)
  {
    if a != [] && a[0] == b[0] == c[0] {
      LexTransitive(a[1..], b[1..], c[1..]);
    }
  }

  /** `a` is processed no later than `b`: higher start line first, then higher id. */
  predicate NotAfter(a: Edit, b: Edit)
  {
    Start(a) > Start(b) || (Start(a) == Start(b) && LexLeq(b.id, a.id))
  }

  predicate Ordered(ops: seq<Edit>)
  {
    forall i, j | 0 <= i < j < |ops| :: NotAfter(ops[i], ops[j])
  }

  function Place(op: Edit, ops: seq<Edit>): (r: seq<Edit>)
    ensures forall o: Edit :: o in r <==> o == op || o in ops
  {
    if ops == [] || NotAfter(op, ops[0]) then [op] + ops
    else
      assert ops == [ops[0]] + ops[1..];
      [ops[0]] + Place(op, ops[1..])
  }

  /** The operations sorted by start line and id, in reverse. */
  function Descending(ops: seq<Edit>): (r: seq<Edit>)
    ensures forall o: Edit :: o in r <==> o in ops
  {
    if ops == [] then []
    else
      assert ops == [ops[0]] + ops[1..] && ops[0] in ops;
      Place(ops[0], Descending(ops[1..]))
  }

  lemma {:induction false} PlaceOrders(op: Edit, ops: seq<Edit>)
    requires Ordered(ops)
    ensures Ordered(Place(op, ops))
  {
    if ops != [] {
      if NotAfter(op, ops[0]) {
        forall j | 0 <= j < |ops| ensures NotAfter(op, ops[j]) {
          if j > 0 && Start(op) == Start(ops[0]) == Start(ops[j]) {
            LexTransitive(ops[j].id, ops[0].id, op.id);
          }
        }
      } else {
        LexTotal(op.id, ops[0].id);
        PlaceOrders(op, ops[1..]);
        var later := Place(op, ops[1..]);
        forall j | 0 <= j < |later| ensures NotAfter(ops[0], later[j]) {
          assert later[j] in later;
        }
      }
    }
  }

  lemma {:induction false} PlaceKeepsApart(op: Edit, ops: seq<Edit>)
    requires NoClash(ops) && Free(op, ops)
    ensures NoClash(Place(op, ops))
  {
    if ops != [] && !NotAfter(op, ops[0]) {
      assert ops[0] in ops;
      PlaceKeepsApart(op, ops[1..]);
      var later := Place(op, ops[1..]);
      forall j | 0 <= j < |later| ensures !Clash(ops[0], later[j]) {
        assert later[j] in later;
      }
    } else {
      assert forall j | 0 <= j < |ops| :: ops[j] in ops;
    }
  }

  lemma {:induction false} DescendingOrders(ops: seq<Edit>)
    ensures Ordered(Descending(ops)) && (NoClash(ops) ==> NoClash(Descending(ops)))
  {
    if ops != [] {
      assert ops[0] in ops;
      DescendingOrders(ops[1..]);
      PlaceOrders(ops[0], Descending(ops[1..]));
      if NoClash(ops) {
        assert Free(ops[0], ops[1..]);
        PlaceKeepsApart(ops[0], Descending(ops[1..]));
      }
    }
  }

  // ---- in-place editing ------------------------------------------------------------------------

  predicate InBounds(op: Edit, n: nat)
  {
    if op.Insert? then op.line <= n else op.last <= n
  }

  /** The recorded text is the text at the operation's place. */
  predicate Matches(op: Edit, original: seq<string>)
    requires InBounds(op, |original|)
  {
    if op.Insert? then op.anchor == (if op.line == 0 then "" else original[op.line - 1])
    else op.before == Join(original[op.first - 1..op.last])
  }

  predicate Fits(op: Edit, original: seq<string>)
  {
    InBounds(op, |original|) && Matches(op, original)
  }

  predicate Accepts(original: seq<string>, ops: seq<Edit>)
  {
    NoClash(ops) && AllFit(original, ops)
  }

  predicate AllFit(original: seq<string>, ops: seq<Edit>)
  {
    forall op | op in ops :: Fits(op, original)
  }

  function PatchOf(op: Edit): Patch
  {
    Patch(Lo(op), Hi(op), NewLines(op))
  }

  function PatchesOf(ops: seq<Edit>): (ps: seq<Patch>)
    ensures |ps| == |ops| && forall i | 0 <= i < |ops| :: ps[i] == PatchOf(ops[i])
  {
    seq(|ops|, i requires 0 <= i < |ops| => PatchOf(ops[i]))
  }

  function EditAll(lines: seq<string>, ops: seq<Edit>): seq<string>
  {
    ApplyPatches(lines, PatchesOf(ops))
  }

  lemma {:induction false} PatchMeans(lines: seq<string>, op: Edit)
    ensures ApplyPatch(lines, PatchOf(op)) ==
      if op.Insert? then Assign(lines, op.line, op.line, NewLines(op))
      else Assign(lines, op.first - 1, op.last, NewLines(op))
  {
    if op.Insert? {
      assert Half(2 * op.line) == op.line && Half(2 * op.line + 1) == op.line;
    } else {
      assert Half(2 * op.first - 1) == op.first - 1 && Half(2 * op.last) == op.last;
    }
  }

  lemma {:induction false} NextPatch(lines: seq<string>, ps: seq<Patch>, k: nat)
    requires k < |ps|
    ensures ApplyPatches(lines, ps[k..]) == ApplyPatches(ApplyPatch(lines, ps[k]), ps[k + 1..])
  {
    assert ps[k..][1..] == ps[k + 1..];
  }

  /** One slice assignment. */
  method EditOne(lines: seq<string>, op: Edit) returns (r: seq<string>)
    ensures r == ApplyPatch(lines, PatchOf(op))
  {
    PatchMeans(lines, op);
    if op.Insert? {
      r := Assign(lines, op.line, op.line, NewLines(op));
    } else {
      r := Assign(lines, op.first - 1, op.last, NewLines(op));
    }
  }

  /** The edit loop on one file. */
  method ApplyToFile(original: seq<string>, ops: seq<Edit>) returns (r: Option<seq<string>>)
    ensures r == if Accepts(original, ops) then Some(EditAll(original, Descending(ops))) else None
  {
    var valid := ValidateNonOverlapping(ops);
    if !valid {
      return None;
    }
    var sorted := Descending(ops);
    r := EditInOrder(original, sorted);
  }

  method EditInOrder(original: seq<string>, sorted: seq<Edit>) returns (r: Option<seq<string>>)
    ensures r == if AllFit(original, sorted) then Some(EditAll(original, sorted)) else None
  {
    var updated := original;
    Begun(original, sorted);
    for k := 0 to |sorted|
      invariant Underway(original, sorted, k, updated)
    {
      UnderwayStep(original, sorted, k, updated);
      if !Fits(sorted[k], original) {
        return None;
      }
      updated := EditOne(updated, sorted[k]);
    }
    Finished(original, sorted, updated);
    return Some(updated);
  }

  /** The first `k` operations fit and `updated` is what they leave. */
  ghost predicate Underway(original: seq<string>, sorted: seq<Edit>, k: nat, updated: seq<string>)
    requires k <= |sorted|
  {
    AllFit(original, sorted[..k]) && ApplyPatches(updated, PatchesOf(sorted)[k..]) == EditAll(original, sorted)
  }

  lemma {:induction false} Begun(original: seq<string>, sorted: seq<Edit>)
    ensures Underway(original, sorted, 0, original)
  {
    assert PatchesOf(sorted)[0..] == PatchesOf(sorted);
  }

  lemma {:induction false} UnderwayStep(original: seq<string>, sorted: seq<Edit>, k: nat, updated: seq<string>)
    requires k < |sorted| && Underway(original, sorted, k, updated)
    ensures if Fits(sorted[k], original) then Underway(original, sorted, k + 1, ApplyPatch(updated, PatchOf(sorted[k])))
            else !AllFit(original, sorted)
  {
    assert sorted[k] in sorted;
    NextPatch(updated, PatchesOf(sorted), k);
    assert sorted[..k + 1] == sorted[..k] + [sorted[k]];
  }

  lemma {:induction false} Finished(original: seq<string>, sorted: seq<Edit>, updated: seq<string>)
    requires Underway(original, sorted, |sorted|, updated)
    ensures AllFit(original, sorted) && updated == EditAll(original, sorted)
  {
    assert sorted[..|sorted|] == sorted && PatchesOf(sorted)[|sorted|..] == [];
  }

  // ---- in-place editing is the splice --------------------------------------------------------------

  /** The insertion anchors on the very line of the region and is processed after it. */
  predicate LosingTie(insertion: Edit, region: Edit)
  {
    insertion.Insert? && !region.Insert? && insertion.line == region.first && LexLeq(insertion.id, region.id)
  }

  predicate TieSafe(ops: seq<Edit>)
  {
    forall a, b | a in ops && b in ops :: !LosingTie(a, b)
  }

  ghost function Spliced(original: seq<string>, ops: seq<Edit>): seq<string>
  {
    Splice(original, SetOf(PatchesOf(ops)))
  }

  lemma {:induction false} Settled(a: Edit, b: Edit)
    requires NotAfter(a, b) && !Clash(a, b) && !LosingTie(b, a)
    ensures Hi(b) < Lo(a)
  {
  }

  lemma {:induction false} OrderedIsBottomUp(ops: seq<Edit>)
    requires Ordered(ops) && NoClash(ops) && TieSafe(ops)
    ensures BottomUp(PatchesOf(ops))
  {
    forall i, j | 0 <= i < j < |ops| ensures Hi(ops[j]) < Lo(ops[i]) {
      assert ops[i] in ops && ops[j] in ops;
      Settled(ops[i], ops[j]);
    }
  }

  lemma {:induction false} SamePatches(ops: seq<Edit>, ops': seq<Edit>)
    requires forall o: Edit :: o in ops <==> o in ops'
    ensures SetOf(PatchesOf(ops)) == SetOf(PatchesOf(ops'))
  {
    PatchesInclude(ops, ops');
    PatchesInclude(ops', ops);
  }

  lemma {:induction false} PatchesInclude(ops: seq<Edit>, ops': seq<Edit>)
    requires forall o: Edit :: o in ops ==> o in ops'
    ensures SetOf(PatchesOf(ops)) <= SetOf(PatchesOf(ops'))
  {
    var ps, ps' := PatchesOf(ops), PatchesOf(ops');
    forall p | p in ps ensures p in ps' {
      var i :| 0 <= i < |ps| && ps[i] == p;
      assert ops[i] in ops;
      var j :| 0 <= j < |ops'| && ops'[j] == ops[i];
      assert ps'[j] == p;
    }
  }

  lemma {:induction false} PatchesFit(original: seq<string>, ops: seq<Edit>)
    requires AllFit(original, ops)
    ensures Within(PatchesOf(ops), |original|)
  {
    var ps := PatchesOf(ops);
    forall p | p in ps ensures p.lo <= p.hi <= 2 * |original| {
      var i :| 0 <= i < |ps| && ps[i] == p;
      assert ops[i] in ops;
    }
  }

  /** For every accepted recipe without a losing tie, bottom-up in-place editing is
      the simultaneous splice, which knows neither order nor identifiers. */
  lemma {:induction false} ApplyIsSplice(original: seq<string>, ops: seq<Edit>)
    requires Accepts(original, ops) && TieSafe(ops)
    ensures EditAll(original, Descending(ops)) == Spliced(original, ops)
  {
    var sorted := Descending(ops);
    DescendingOrders(ops);
    OrderedIsBottomUp(sorted);
    PatchesFit(original, sorted);
    BottomUpIsSplice(original, PatchesOf(sorted));
    SamePatches(ops, sorted);
  }

  // ---- the order of the list never matters --------------------------------------------------------

  predicate DistinctIds(ops: seq<Edit>)
  {
    forall i, j | 0 <= i < j < |ops| :: ops[i].id != ops[j].id
  }

  ghost predicate SameOps(ops: seq<Edit>, ops': seq<Edit>)
  {
    forall o: Edit :: o in ops <==> o in ops'
  }

  predicate FreshId(op: Edit, ops: seq<Edit>)
  {
    forall o | o in ops :: o.id != op.id
  }

  lemma {:induction false} PlaceKeepsDistinct(op: Edit, ops: seq<Edit>)
    requires DistinctIds(ops) && FreshId(op, ops)
    ensures DistinctIds(Place(op, ops))
  {
    if ops != [] && !NotAfter(op, ops[0]) {
      assert ops[0] in ops;
      PlaceKeepsDistinct(op, ops[1..]);
      var later := Place(op, ops[1..]);
      forall j | 0 <= j < |later| ensures ops[0].id != later[j].id {
        assert later[j] in later;
      }
    } else {
      assert forall j | 0 <= j < |ops| :: ops[j] in ops;
    }
  }

  lemma {:induction false} DescendingKeepsDistinct(ops: seq<Edit>)
    requires DistinctIds(ops)
    ensures DistinctIds(Descending(ops))
  {
    if ops != [] {
      assert ops[0] in ops;
      DescendingKeepsDistinct(ops[1..]);
      PlaceKeepsDistinct(ops[0], Descending(ops[1..]));
    }
  }

  lemma {:induction false} FirstIsCanonical(a: seq<Edit>, b: seq<Edit>)
    requires Ordered(a) && Ordered(b) && DistinctIds(b) && SameOps(a, b) && a != [] && b != []
    ensures a[0] == b[0]
  {
    assert a[0] in a && b[0] in b;
    var i :| 0 <= i < |a| && a[i] == b[0];
    var j :| 0 <= j < |b| && b[j] == a[0];
    LexTotal(a[0].id, b[0].id);
    assert i == 0 || j == 0;
  }

  lemma {:induction false} TailsSame(a: seq<Edit>, b: seq<Edit>)
    requires DistinctIds(a) && DistinctIds(b) && SameOps(a, b) && a != [] && b != [] && a[0] == b[0]
    ensures SameOps(a[1..], b[1..]) && DistinctIds(a[1..]) && DistinctIds(b[1..])
  {
    TailWithin(a, b);
    TailWithin(b, a);
  }

  lemma {:induction false} TailWithin(a: seq<Edit>, b: seq<Edit>)
    requires DistinctIds(a) && a != [] && b != [] && a[0] == b[0]
    requires forall o: Edit :: o in a ==> o in b
    ensures DistinctIds(a[1..]) && forall o: Edit :: o in a[1..] ==> o in b[1..]
  {
    var rest := a[1..];
    forall o: Edit | o in rest ensures o in b[1..] {
      var i :| 0 <= i < |rest| && rest[i] == o;
      assert a[i + 1] == o && o in a;
      var j :| 0 <= j < |b| && b[j] == o;
      assert b[1..][j - 1] == o;
    }
  }

  lemma {:induction false} SortedIsCanonical(a: seq<Edit>, b: seq<Edit>)
    requires Ordered(a) && Ordered(b) && DistinctIds(a) && DistinctIds(b) && SameOps(a, b)
    ensures a == b
  {
    assert a != [] ==> a[0] in a && a[0] in b;
    assert b != [] ==> b[0] in b && b[0] in a;
    if a != [] {
      FirstIsCanonical(a, b);
      TailsSame(a, b);
      SortedIsCanonical(a[1..], b[1..]);
      assert a == [a[0]] + a[1..] && b == [b[0]] + b[1..];
    }
  }

  lemma {:induction false} NoClashAsSet(ops: seq<Edit>)
    requires DistinctIds(ops)
    ensures NoClash(ops) <==> forall a, b | a in ops && b in ops && a.id != b.id :: !Clash(a, b)
  {
    if NoClash(ops) {
      forall a, b | a in ops && b in ops && a.id != b.id ensures !Clash(a, b) {
        var i, j :| 0 <= i < |ops| && 0 <= j < |ops| && ops[i] == a && ops[j] == b;
      }
    }
  }

  /** With distinct identifiers, the order in which a recipe lists the operations of a
      file decides neither whether it is accepted nor what it does, ties included. */
  lemma {:induction false} OrderDoesNotMatter(original: seq<string>, ops: seq<Edit>, ops': seq<Edit>)
    requires DistinctIds(ops) && DistinctIds(ops') && SameOps(ops, ops')
    ensures Accepts(original, ops) <==> Accepts(original, ops')
    ensures EditAll(original, Descending(ops)) == EditAll(original, Descending(ops'))
  {
    NoClashAsSet(ops);
    NoClashAsSet(ops');
    DescendingOrders(ops);
    DescendingOrders(ops');
    DescendingKeepsDistinct(ops);
    DescendingKeepsDistinct(ops');
    SortedIsCanonical(Descending(ops), Descending(ops'));
  }

  // ---- exactly what losing ties do --------------------------------------------------------------------

  /** The lines whose region is processed before the insertion that anchors on it. */
  ghost function CrossedLines(ops: seq<Edit>): set<nat>
  {
    set i, r | i in ops && r in ops && LosingTie(i, r) :: i.line
  }

  lemma {:induction false} ClashMeansSame(ops: seq<Edit>, a: Edit, b: Edit)
    requires NoClash(ops) && a in ops && b in ops && Clash(a, b)
    ensures a == b
  {
    var i, j :| 0 <= i < |ops| && 0 <= j < |ops| && ops[i] == a && ops[j] == b;
  }

  lemma {:induction false} PatchesAreDisjoint(ops: seq<Edit>)
    requires NoClash(ops)
    ensures Disjoint(SetOf(PatchesOf(ops)))
  {
    var ps := PatchesOf(ops);
    forall a, b, slot: nat | a in SetOf(ps) && b in SetOf(ps) && a.Covers(slot) && b.Covers(slot) ensures a == b {
      var i, j :| 0 <= i < |ps| && 0 <= j < |ps| && ps[i] == a && ps[j] == b;
      assert ops[i] in ops && ops[j] in ops;
      ClashMeansSame(ops, ops[i], ops[j]);
    }
  }

  lemma {:induction false} PatchIn(ops: seq<Edit>, op: Edit)
    requires op in ops
    ensures PatchOf(op) in SetOf(PatchesOf(ops))
  {
    var i :| 0 <= i < |ops| && ops[i] == op;
    assert PatchesOf(ops)[i] == PatchOf(op);
  }

  /** A losing tie takes the slot of one line and the slot after it. */
  lemma {:induction false} TieSlots(ops: seq<Edit>, i: Edit, r: Edit)
    requires NoClash(ops) && i in ops && r in ops && LosingTie(i, r)
    ensures i.line >= 1 && Lo(r) == Hi(r) == 2 * i.line - 1 && Lo(i) == Hi(i) == 2 * i.line
    ensures IsCrossed(CrossedLines(ops), 2 * i.line - 1) && Half(2 * i.line - 1) == i.line - 1
  {
    if Clash(i, r) {
      ClashMeansSame(ops, i, r);
    }
    assert i.line in CrossedLines(ops);
  }

  lemma {:induction false} CrossedSlot(ops: seq<Edit>, slot: nat) returns (i: Edit, r: Edit)
    requires NoClash(ops) && IsCrossed(CrossedLines(ops), slot)
    ensures i in ops && r in ops && LosingTie(i, r) && slot == 2 * i.line - 1
  {
    i, r :| i in ops && r in ops && LosingTie(i, r) && i.line == Half(slot) + 1;
  }

  lemma {:induction false} TiesAreAnchored(ops: seq<Edit>)
    requires NoClash(ops)
    ensures Anchored(SetOf(PatchesOf(ops)), CrossedLines(ops))
  {
    var ps := SetOf(PatchesOf(ops));
    forall slot: nat | IsCrossed(CrossedLines(ops), slot) ensures Alone(ps, slot) && Alone(ps, slot + 1) {
      var i, r := CrossedSlot(ops, slot);
      TieSlots(ops, i, r);
      PatchIn(ops, i);
      PatchIn(ops, r);
      assert PatchOf(r).lo == PatchOf(r).hi == slot && PatchOf(i).lo == PatchOf(i).hi == slot + 1;
    }
  }

  lemma {:induction false} InsertsSomething(i: Edit)
    requires i.Insert?
    ensures NewLines(i) != []
  {
  }

  lemma {:induction false} TieInserts(original: seq<string>, ops: seq<Edit>, i: Edit, r: Edit)
    requires NoClash(ops) && i in ops && r in ops && LosingTie(i, r) && Disjoint(SetOf(PatchesOf(ops)))
    ensures Emit(original, SetOf(PatchesOf(ops)), 2 * i.line) != []
  {
    TieSlots(ops, i, r);
    PatchIn(ops, i);
    EmitCovered(original, SetOf(PatchesOf(ops)), PatchOf(i), 2 * i.line);
    InsertsSomething(i);
  }

  lemma {:induction false} TiesInsert(original: seq<string>, ops: seq<Edit>)
    requires Accepts(original, ops)
    ensures Inserting(original, SetOf(PatchesOf(ops)), CrossedLines(ops))
  {
    var ps := SetOf(PatchesOf(ops));
    PatchesAreDisjoint(ops);
    forall slot: nat | IsCrossed(CrossedLines(ops), slot)
      ensures slot < 2 * |original| && Emit(original, ps, slot + 1) != []
    {
      var i, r := CrossedSlot(ops, slot);
      TieInserts(original, ops, i, r);
      assert InBounds(i, |original|);
    }
  }

  lemma {:induction false} OrderedPair(ops: seq<Edit>, a: Edit, b: Edit)
    requires NoClash(ops) && a in ops && b in ops && a.id != b.id && !Clash(a, b) && NotAfter(a, b)
    ensures Before(CrossedLines(ops), PatchOf(a), PatchOf(b))
  {
    var crossed := CrossedLines(ops);
    if LosingTie(b, a) {
      TieSlots(ops, b, a);
    } else {
      Settled(a, b);
      assert !Pair(crossed, PatchOf(b), PatchOf(a)) by {
        if Pair(crossed, PatchOf(b), PatchOf(a)) {
          var i, r := CrossedSlot(ops, Lo(b));
          TieSlots(ops, i, r);
          ClashMeansSame(ops, i, a);
          ClashMeansSame(ops, r, b);
          LexTotal(a.id, b.id);
        }
      }
    }
  }

  lemma {:induction false} SortedIsArranged(ops: seq<Edit>, sorted: seq<Edit>)
    requires NoClash(ops) && NoClash(sorted) && DistinctIds(sorted) && Ordered(sorted)
    requires forall o | o in sorted :: o in ops
    ensures Arranged(CrossedLines(ops), PatchesOf(sorted))
  {
    forall i, j | 0 <= i < j < |sorted| ensures Before(CrossedLines(ops), PatchOf(sorted[i]), PatchOf(sorted[j])) {
      assert sorted[i] in sorted && sorted[j] in sorted;
      OrderedPair(ops, sorted[i], sorted[j]);
    }
  }

  /** For every accepted recipe, in-place editing is the layout over original coordinates
      in which an insertion whose line was already patched goes in behind the first line
      that stands there by then. */
  lemma {:induction false} ApplyIsLaid(original: seq<string>, ops: seq<Edit>)
    requires Accepts(original, ops) && DistinctIds(ops)
    ensures EditAll(original, Descending(ops)) == Laid(original, SetOf(PatchesOf(ops)), CrossedLines(ops), 0)
  {
    ReadyToLay(original, ops);
    InPlaceIsLaid(original, PatchesOf(Descending(ops)), CrossedLines(ops));
  }

  lemma {:induction false} ReadyToLay(original: seq<string>, ops: seq<Edit>)
    requires Accepts(original, ops) && DistinctIds(ops)
    ensures var ps := PatchesOf(Descending(ops));
      && SetOf(ps) == SetOf(PatchesOf(ops)) && Disjoint(SetOf(ps)) && Anchored(SetOf(ps), CrossedLines(ops))
      && Arranged(CrossedLines(ops), ps) && Within(ps, |original|)
  {
    var sorted := Descending(ops);
    DescendingOrders(ops);
    DescendingKeepsDistinct(ops);
    SamePatches(ops, sorted);
    PatchesAreDisjoint(ops);
    TiesAreAnchored(ops);
    SortedIsArranged(ops, sorted);
    PatchesFit(original, sorted);
  }

  /** The lines of insertion `i` commute with what they are displaced across: the lines of
      region `r` after its first or, if it has none, the first line spliced below it. */
  ghost predicate TieCommutes(original: seq<string>, ops: seq<Edit>, i: Edit, r: Edit)
  {
    PairCommutes(original, SetOf(PatchesOf(ops)), PatchOf(r), PatchOf(i))
  }

  ghost predicate TiesCommute(original: seq<string>, ops: seq<Edit>)
  {
    forall i, r | i in ops && r in ops && LosingTie(i, r) :: TieCommutes(original, ops, i, r)
  }

  lemma {:induction false} TieAtSlot(original: seq<string>, ops: seq<Edit>, i: Edit, r: Edit)
    requires NoClash(ops) && i in ops && r in ops && LosingTie(i, r)
    ensures i.line >= 1
    ensures TieCommutes(original, ops, i, r) <==> Commutes(original, SetOf(PatchesOf(ops)), 2 * i.line - 1)
  {
    var ps := SetOf(PatchesOf(ops));
    PatchesAreDisjoint(ops);
    TieSlots(ops, i, r);
    PatchIn(ops, i);
    PatchIn(ops, r);
    CommutesMeans(original, ps, PatchOf(r), PatchOf(i));
  }

  lemma {:induction false} CommuteBySlot(original: seq<string>, ops: seq<Edit>)
    requires Accepts(original, ops)
    ensures TiesCommute(original, ops) <==> AllCommute(original, SetOf(PatchesOf(ops)), CrossedLines(ops), 0)
  {
    var ps, crossed := SetOf(PatchesOf(ops)), CrossedLines(ops);
    if TiesCommute(original, ops) {
      forall slot: nat | slot <= 2 * |original| && IsCrossed(crossed, slot) ensures Commutes(original, ps, slot) {
        var i, r := CrossedSlot(ops, slot);
        TieAtSlot(original, ops, i, r);
      }
    }
    if AllCommute(original, ps, crossed, 0) {
      forall i, r | i in ops && r in ops && LosingTie(i, r) ensures TieCommutes(original, ops, i, r) {
        TieSlots(ops, i, r);
        TieAtSlot(original, ops, i, r);
        assert Fits(i, original);
      }
    }
  }

  /** Every accepted recipe, however many ties it loses, is the simultaneous splice if and
      only if each losing insertion commutes with what it is displaced across. */
  lemma {:induction false} SpliceIffTiesCommute(original: seq<string>, ops: seq<Edit>)
    requires Accepts(original, ops) && DistinctIds(ops)
    ensures EditAll(original, Descending(ops)) == Spliced(original, ops) <==> TiesCommute(original, ops)
  {
    ReadyToLay(original, ops);
    TiesInsert(original, ops);
    InPlaceIsSpliceIff(original, PatchesOf(Descending(ops)), CrossedLines(ops));
    CommuteBySlot(original, ops);
  }

  /** A region replaced by exactly one line displaces nothing. */
  lemma {:induction false} OneForOneCommutes(original: seq<string>, ops: seq<Edit>, i: Edit, r: Edit)
    requires |NewLines(r)| == 1
    ensures TieCommutes(original, ops, i, r)
  {
    assert NewLines(r)[1..] == [] && NewLines(i) + [] == [] + NewLines(i);
  }

  lemma {:induction false} TwoEdits(original: seq<string>, a: Edit, b: Edit)
    ensures EditAll(original, Descending([a, b])) ==
      if NotAfter(a, b) then ApplyPatch(ApplyPatch(original, PatchOf(a)), PatchOf(b))
      else ApplyPatch(ApplyPatch(original, PatchOf(b)), PatchOf(a))
  {
    var ops := [a, b];
    assert ops[1..] == [b] && [b][1..] == [];
    assert Descending([b]) == [b];
    var sorted := Descending(ops);
    assert sorted == Place(a, [b]);
    assert Place(a, []) == [a];
    assert sorted == if NotAfter(a, b) then [a, b] else [b, a];
    ApplyFirstTwo(original, PatchesOf(sorted));
    assert PatchesOf(sorted)[2..] == [];
  }

  /** Line 1 of two is deleted and a line goes in after it: with the higher identifier
      the insertion takes the deleted line's place, with the lower one it slips below
      the line that follows. */
  lemma {:induction false} IdDecidesTie(a: string, b: string, x: string, region: Edit, insertion: Edit)
    requires region.Delete? && region.first == region.last == 1 && region.before == a
    requires insertion.Insert? && insertion.line == 1 && insertion.anchor == a && NewLines(insertion) == [x]
    ensures Accepts([a, b], [region, insertion])
    ensures EditAll([a, b], Descending([region, insertion])) ==
            if LexLeq(insertion.id, region.id) then [b, x] else [x, b]
  {
    var original := [a, b];
    TieAccepted(a, b, region, insertion);
    TwoEdits(original, region, insertion);
    FirstLineGone(original, region);
    FirstLineGone([a, x, b], region);
    AfterFirstLine(original, insertion);
    AfterFirstLine([b], insertion);
  }

  lemma {:induction false} TieAccepted(a: string, b: string, region: Edit, insertion: Edit)
    requires region.Delete? && region.first == region.last == 1 && region.before == a
    requires insertion.Insert? && insertion.line == 1 && insertion.anchor == a
    ensures Accepts([a, b], [region, insertion])
  {
    assert [a, b][0..1] == [a] && Join([a]) == a;
  }

  lemma {:induction false} FirstLineGone(lines: seq<string>, region: Edit)
    requires lines != [] && region.Delete? && region.first == region.last == 1
    ensures ApplyPatch(lines, PatchOf(region)) == lines[1..]
  {
    PatchMeans(lines, region);
  }

  lemma {:induction false} AfterFirstLine(lines: seq<string>, insertion: Edit)
    requires lines != [] && insertion.Insert? && insertion.line == 1
    ensures ApplyPatch(lines, PatchOf(insertion)) == lines[..1] + NewLines(insertion) + lines[1..]
  {
    PatchMeans(lines, insertion);
  }

  // ---- telling the outcome from the text ------------------------------------------------------------------

  /** The file and everything put into it consist of newline-terminated lines. */
  ghost predicate ClosedEdits(original: seq<string>, ops: seq<Edit>)
  {
    AllClosed(original) && forall op | op in ops :: AllClosed(NewLines(op))
  }

  lemma {:induction false} PatchesClosed(lines: seq<string>, ps: seq<Patch>)
    requires AllClosed(lines) && forall p | p in ps :: AllClosed(p.lines)
    ensures AllClosed(ApplyPatches(lines, ps))
    decreases |ps|
  {
    if ps != [] {
      assert ps[0] in ps;
      PatchesClosed(ApplyPatch(lines, ps[0]), ps[1..]);
    }
  }

  lemma {:induction false} BetweenClosed(original: seq<string>, ps: set<Patch>, from: nat, upto: nat)
    requires AllClosed(original) && forall p | p in ps :: AllClosed(p.lines)
    ensures AllClosed(Between(original, ps, from, upto))
    decreases upto
  {
    if upto > from {
      BetweenClosed(original, ps, from, upto - 1);
    }
  }

  lemma {:induction false} PatchLinesClosed(original: seq<string>, ops: seq<Edit>)
    requires ClosedEdits(original, ops)
    ensures forall p | p in PatchesOf(ops) :: AllClosed(p.lines)
  {
    var ps := PatchesOf(ops);
    forall p | p in ps ensures AllClosed(p.lines) {
      var i :| 0 <= i < |ps| && ps[i] == p;
      assert ops[i] in ops;
    }
  }

  /** Where all lines are terminated, the text tells whether the outcome is the splice. */
  lemma {:induction false} TextTellsSplice(original: seq<string>, ops: seq<Edit>)
    requires ClosedEdits(original, ops)
    ensures var lines := EditAll(original, Descending(ops));
      Join(lines) == Join(Spliced(original, ops)) <==> lines == Spliced(original, ops)
  {
    PatchLinesClosed(original, Descending(ops));
    PatchLinesClosed(original, ops);
    PatchesClosed(original, PatchesOf(Descending(ops)));
    BetweenClosed(original, SetOf(PatchesOf(ops)), 0, 2 * |original| + 1);
    if Join(EditAll(original, Descending(ops))) == Join(Spliced(original, ops)) {
      JoinIsInjective(EditAll(original, Descending(ops)), Spliced(original, ops));
    }
  }

  // ---- what is accepted ---------------------------------------------------------------------------------

  /** The line an insertion anchors on, or the lines a region replaces, are there and read
      as recorded. */
  predicate UpToDate(op: Edit, original: seq<string>)
  {
    match op
    case Insert(_, _, line, anchor, _) =>
      line <= |original| && anchor == if line == 0 then "" else original[line - 1]
    case Replace(_, _, first, last, before, _) => last <= |original| && before == Join(original[first - 1..last])
    case Delete(_, _, first, last, before) => last <= |original| && before == Join(original[first - 1..last])
  }

  /** Lines first .. last of a region. */
  predicate RegionHas(op: Edit, line: nat)
  {
    !op.Insert? && op.first <= line <= op.last
  }

  /** Regions share no line, insertions do not go after the same line, and none goes between
      two lines of a region. */
  predicate KeepApart(a: Edit, b: Edit)
  {
    if a.Insert? && b.Insert? then a.line != b.line
    else if a.Insert? then !(RegionHas(b, a.line) && RegionHas(b, a.line + 1))
    else if b.Insert? then !(RegionHas(a, b.line) && RegionHas(a, b.line + 1))
    else a.last < b.first || b.last < a.first
  }

  lemma {:induction false} ClashIsNotApart(a: Edit, b: Edit)
    ensures Clash(a, b) <==> !KeepApart(a, b)
  {
  }

  /** A recipe is accepted for a file if and only if every operation reads its place as recorded
      and no two get in each other's way; a stale one is rejected. */
  lemma {:induction false} AcceptsIff(original: seq<string>, ops: seq<Edit>)
    ensures Accepts(original, ops) <==>
      && (forall op | op in ops :: UpToDate(op, original))
      && (forall i, j | 0 <= i < j < |ops| :: KeepApart(ops[i], ops[j]))
  {
    forall op | op in ops ensures Fits(op, original) <==> UpToDate(op, original) {
    }
    forall i, j | 0 <= i < j < |ops| ensures Clash(ops[i], ops[j]) <==> !KeepApart(ops[i], ops[j]) {
      ClashIsNotApart(ops[i], ops[j]);
    }
  }

  // ---- a single operation -----------------------------------------------------------------------------------

  /** Lines `from` up to `to` are what an operation replaces; an insertion replaces none. */
  function From(op: Edit): nat
  {
    if op.Insert? then op.line else op.first - 1
  }

  function To(op: Edit): nat
  {
    if op.Insert? then op.line else op.last
  }

  lemma {:induction false} OneEdit(lines: seq<string>, op: Edit)
    requires InBounds(op, |lines|)
    ensures From(op) <= To(op) <= |lines|
    ensures EditAll(lines, Descending([op])) == lines[..From(op)] + NewLines(op) + lines[To(op)..]
  {
    assert [op][1..] == [] && Descending([]) == [] && Descending([op]) == [op];
    assert PatchesOf([op])[1..] == [] && PatchesOf([op])[0] == PatchOf(op);
    assert ApplyPatches(ApplyPatch(lines, PatchOf(op)), []) == ApplyPatch(lines, PatchOf(op));
    PatchMeans(lines, op);
  }

  /** What one operation does to a text: its own text stands in the place of the lines it names,
      or behind the line it names. */
  lemma {:induction false} SingleEdit(before: string, op: Edit)
    requires InBounds(op, |Split(before)|)
    ensures var lines := Split(before);
      From(op) <= To(op) <= |lines| &&
      Join(EditAll(lines, Descending([op]))) ==
        Join(lines[..From(op)]) + (if op.Delete? then "" else op.text) + Join(lines[To(op)..])
  {
    var lines := Split(before);
    OneEdit(lines, op);
    JoinAppend(lines[..From(op)] + NewLines(op), lines[To(op)..]);
    JoinAppend(lines[..From(op)], NewLines(op));
    if !op.Delete? {
      JoinSplit(op.text);
    }
  }
}
