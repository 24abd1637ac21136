/** Applying a recipe to a whole tree of files. */
module Trees {
  import opened Options
  import opened Lines
  import opened Recipes
  import opened Splicing
  import opened Applying

  /** File contents by path. */
  type Tree = map<string, string>

  // ---- grouping by path --------------------------------------------------------------------------

  function OpsFor(ops: seq<Op>, path: string): seq<Op>
  {
    if ops == [] then []
    else
      var before, op := OpsFor(ops[..|ops| - 1], path), ops[|ops| - 1];
      if op.path == path then before + [op] else before
  }

  lemma {:induction false} OpsForHas(ops: seq<Op>, path: string, op: Op)
    ensures op in OpsFor(ops, path) <==> op in ops && op.path == path
  {
    if ops != [] {
      OpsForHas(ops[..|ops| - 1], path, op);
      assert ops == ops[..|ops| - 1] + [ops[|ops| - 1]];
    }
  }

  lemma {:induction false} OpsForAppend(a: seq<Op>, b: seq<Op>, path: string)
    ensures OpsFor(a + b, path) == OpsFor(a, path) + OpsFor(b, path)
    decreases |b|
  {
    if b == [] {
      assert a + b == a;
    } else {
      assert (a + b)[..|a + b| - 1] == a + b[..|b| - 1];
      OpsForAppend(a, b[..|b| - 1], path);
    }
  }

  predicate Touches(ops: seq<Op>, path: string)
  {
    exists op :: op in ops && op.path == path
  }

  predicate AllShaped(ops: seq<Op>)
  {
    forall op | op in ops :: WellShaped(op)
  }

  predicate DistinctOpIds(ops: seq<Op>)
  {
    forall i, j | 0 <= i < j < |ops| :: ops[i].id != ops[j].id
  }

  /** What the recipe record itself is validated for. */
  predicate ValidRecipe(ops: seq<Op>)
  {
    ops != [] && AllShaped(ops) && DistinctOpIds(ops)
  }

  predicate HasCreate(ops: seq<Op>)
  {
    exists op :: op in ops && op.Create?
  }

  function AsEdits(ops: seq<Op>): (r: seq<Edit>)
    requires AllShaped(ops) && !HasCreate(ops)
    ensures |r| == |ops| && forall i | 0 <= i < |ops| :: r[i] == ops[i]
  {
    seq(|ops|, i requires 0 <= i < |ops| => assert ops[i] in ops; ops[i])
  }

  // ---- what a recipe does to a tree -----------------------------------------------------------------

  /** The new text of one path: a creation stands alone on a path that does not exist,
      edits need an existing file that accepts them. */
  function FileOutcome(before: Tree, path: string, ops: seq<Op>): Option<string>
    requires AllShaped(ops)
  {
    if HasCreate(ops) then
      if |ops| == 1 && path !in before && ops[0].Create? then Some(ops[0].text) else None
    else if path !in before then None
    else
      var original, edits := Split(before[path]), AsEdits(ops);
      if Accepts(original, edits) then Some(Join(EditAll(original, Descending(edits)))) else None
  }

  lemma {:induction false} OpsForShaped(ops: seq<Op>, path: string)
    requires AllShaped(ops)
    ensures AllShaped(OpsFor(ops, path))
  {
    forall op | op in OpsFor(ops, path) ensures WellShaped(op) {
      OpsForHas(ops, path, op);
    }
  }

  function PathOutcome(before: Tree, ops: seq<Op>, path: string): Option<string>
    requires AllShaped(ops)
  {
    OpsForShaped(ops, path);
    FileOutcome(before, path, OpsFor(ops, path))
  }

  predicate Applies(before: Tree, ops: seq<Op>)
    requires AllShaped(ops)
  {
    forall op | op in ops :: PathOutcome(before, ops, op.path).Some?
  }

  function Paths(ops: seq<Op>): set<string>
  {
    set op | op in ops :: op.path
  }

  /** The tree is rejected as a whole, or every path takes its own outcome. */
  function Outcome(before: Tree, ops: seq<Op>): Option<Tree>
    requires AllShaped(ops)
  {
    if Applies(before, ops) then Some(Changed(before, ops)) else None
  }

  function Changed(before: Tree, ops: seq<Op>): (after: Tree)
    requires AllShaped(ops) && Applies(before, ops)
    ensures after.Keys == before.Keys + Paths(ops)
    ensures forall path | path in Paths(ops) :: PathOutcome(before, ops, path) == Some(after[path])
    ensures forall path | path in before && path !in Paths(ops) :: after[path] == before[path]
  {
    map path | path in before.Keys + Paths(ops) ::
      if path in Paths(ops) then PathOutcome(before, ops, path).value else before[path]
  }

  // ---- the loops ---------------------------------------------------------------------------------------

  predicate NoDuplicates(paths: seq<string>)
  {
    forall i, j | 0 <= i < j < |paths| :: paths[i] != paths[j]
  }

  /** `grouped` holds the operations of each path that `ops` names, and `order` lists
      those paths once each. */
  ghost predicate Grouped(ops: seq<Op>, order: seq<string>, grouped: map<string, seq<Op>>)
  {
    && NoDuplicates(order) && grouped.Keys == Paths(ops)
    && (forall path :: path in order <==> path in grouped)
    && (forall path | path in grouped :: grouped[path] == OpsFor(ops, path))
  }

  lemma {:induction false} GroupStep(ops: seq<Op>, op: Op, order: seq<string>, grouped: map<string, seq<Op>>)
    requires Grouped(ops, order, grouped)
    ensures var known := op.path in grouped;
      Grouped(ops + [op], if known then order else order + [op.path],
              grouped[op.path := (if known then grouped[op.path] else []) + [op]])
  {
    PathsSnoc(ops, op);
    var known := op.path in grouped;
    if !known {
      NoOpsFor(ops, op.path);
    }
    var grouped' := grouped[op.path := (if known then grouped[op.path] else []) + [op]];
    forall path | path in grouped' ensures grouped'[path] == OpsFor(ops + [op], path) {
      OpsForSnoc(ops, op, path);
    }
  }

  lemma {:induction false} OpsForSnoc(ops: seq<Op>, op: Op, path: string)
    ensures OpsFor(ops + [op], path) == if op.path == path then OpsFor(ops, path) + [op] else OpsFor(ops, path)
  {
    assert (ops + [op])[..|ops|] == ops;
  }

  lemma {:induction false} PathsSnoc(ops: seq<Op>, op: Op)
    ensures Paths(ops + [op]) == Paths(ops) + {op.path}
  {
    assert op in ops + [op];
  }

  lemma {:induction false} NoOpsFor(ops: seq<Op>, path: string)
    requires path !in Paths(ops)
    ensures OpsFor(ops, path) == []
  {
    if OpsFor(ops, path) != [] {
      OpsForHas(ops, path, OpsFor(ops, path)[0]);
    }
  }

  method AddToGroup(ghost ops: seq<Op>, op: Op, order: seq<string>, grouped: map<string, seq<Op>>)
    returns (order': seq<string>, grouped': map<string, seq<Op>>)
    requires Grouped(ops, order, grouped)
    ensures Grouped(ops + [op], order', grouped')
  {
    order', grouped' := order, grouped;
    if op.path !in grouped {
      order' := order + [op.path];
      grouped' := grouped[op.path := []];
      assert grouped'[op.path := [] + [op]] == grouped[op.path := [] + [op]];
    }
    grouped' := grouped'[op.path := grouped'[op.path] + [op]];
    GroupStep(ops, op, order, grouped);
  }

  /** The groups in order of first appearance. */
  method Group(ops: seq<Op>) returns (order: seq<string>, grouped: map<string, seq<Op>>)
    ensures Grouped(ops, order, grouped)
  {
    order, grouped := [], map[];
    for k := 0 to |ops|
      invariant Grouped(ops[..k], order, grouped)
    {
      var op := ops[k];
      assert ops[..k + 1] == ops[..k] + [op];
      order, grouped := AddToGroup(ops[..k], op, order, grouped);
    }
    assert ops[..|ops|] == ops;
  }

  /** One path of the outer loop; `tree` still holds the original at this path. */
  method ApplyToPath(tree: Tree, path: string, ops: seq<Op>) returns (r: Option<string>)
    requires AllShaped(ops)
    ensures r == FileOutcome(tree, path, ops)
  {
    if HasCreate(ops) {
      if |ops| != 1 || path in tree {
        return None;
      }
      var op :| op in ops && op.Create?;
      return Some(op.text);
    }
    if path !in tree {
      return None;
    }
    var updated := ApplyToFile(Split(tree[path]), AsEdits(ops));
    match updated
    case None => return None;
    case Some(lines) => return Some(Join(lines));
  }

  lemma {:induction false} OutcomeIsLocal(a: Tree, b: Tree, path: string, ops: seq<Op>)
    requires AllShaped(ops)
    requires path in a <==> path in b
    requires path in a ==> a[path] == b[path]
    ensures FileOutcome(a, path, ops) == FileOutcome(b, path, ops)
  {
  }

  /** `tree` is `before` with the paths of `done` already taken to their outcome. */
  ghost predicate Midway(before: Tree, ops: seq<Op>, done: seq<string>, tree: Tree)
    requires AllShaped(ops)
  {
    && tree.Keys == before.Keys + (set p | p in done)
    && (forall p | p in done :: PathOutcome(before, ops, p) == Some(tree[p]))
    && (forall p | p in before && p !in done :: tree[p] == before[p])
  }

  lemma {:induction false} MidwayStep(before: Tree, ops: seq<Op>, done: seq<string>, tree: Tree, path: string,
                                      text: string)
    requires AllShaped(ops) && Midway(before, ops, done, tree)
    requires path !in done && PathOutcome(before, ops, path) == Some(text)
    ensures Midway(before, ops, done + [path], tree[path := text])
  {
  }

  lemma {:induction false} MidwayEnd(before: Tree, ops: seq<Op>, done: seq<string>, tree: Tree)
    requires AllShaped(ops) && Midway(before, ops, done, tree)
    requires forall path :: path in done <==> path in Paths(ops)
    ensures Outcome(before, ops) == Some(tree)
  {
    forall op | op in ops ensures PathOutcome(before, ops, op.path).Some? {
      assert op.path in Paths(ops);
    }
    assert (set p | p in done) == Paths(ops);
    SameResult(before, ops, tree, Changed(before, ops));
  }

  lemma {:induction false} SameResult(before: Tree, ops: seq<Op>, tree: Tree, result: Tree)
    requires AllShaped(ops)
    requires tree.Keys == before.Keys + Paths(ops) == result.Keys
    requires forall p | p in Paths(ops) :: PathOutcome(before, ops, p) == Some(tree[p]) == Some(result[p])
    requires forall p | p in before && p !in Paths(ops) :: tree[p] == before[p] == result[p]
    ensures result == tree
  {
  }

  /** One path against the tree as it stands. */
  method ApplyMidway(ghost before: Tree, ghost ops: seq<Op>, ghost done: seq<string>, tree: Tree, path: string,
                     mine: seq<Op>)
    returns (text: Option<string>)
    requires mine == OpsFor(ops, path)
    requires AllShaped(ops) && Midway(before, ops, done, tree) && path !in done && path in Paths(ops)
    ensures text.None? ==> Outcome(before, ops).None?
    ensures text.Some? ==> Midway(before, ops, done + [path], tree[path := text.value])
  {
    OpsForShaped(ops, path);
    OutcomeIsLocal(before, tree, path, OpsFor(ops, path));
    text := ApplyToPath(tree, path, mine);
    if text.Some? {
      MidwayStep(before, ops, done, tree, path, text.value);
    } else {
      assert PathOutcome(before, ops, path).None?;
    }
  }

  method ApplyRecipe(before: Tree, ops: seq<Op>) returns (r: Option<Tree>)
    requires ValidRecipe(ops)
    ensures r == Outcome(before, ops)
  {
    var result := before;
    var order, grouped := Group(ops);
    for k := 0 to |order|
      invariant Midway(before, ops, order[..k], result)
    {
      var path := order[k];
      assert path !in order[..k] && path in order && order[..k + 1] == order[..k] + [path];
      var text := ApplyMidway(before, ops, order[..k], result, path, grouped[path]);
      if text.None? {
        return None;
      }
      result := result[path := text.value];
    }
    assert order[..|order|] == order;
    MidwayEnd(before, ops, order, result);
    return Some(result);
  }

  // ---- order and splice for whole trees ---------------------------------------------------------------

  lemma {:induction false} OpsForDistinct(ops: seq<Op>, path: string)
    requires DistinctOpIds(ops)
    ensures DistinctOpIds(OpsFor(ops, path))
  {
    if ops != [] {
      var front, op := ops[..|ops| - 1], ops[|ops| - 1];
      OpsForDistinct(front, path);
      var before := OpsFor(front, path);
      forall i | 0 <= i < |before| ensures before[i].id != op.id {
        OpsForHas(front, path, before[i]);
      }
    }
  }

  ghost predicate SameElements(ops: seq<Op>, ops': seq<Op>)
  {
    forall o: Op :: o in ops <==> o in ops'
  }

  lemma {:induction false} SameCount(ops: seq<Op>, ops': seq<Op>)
    requires DistinctOpIds(ops) && DistinctOpIds(ops') && SameElements(ops, ops')
    ensures |ops| == |ops'|
  {
    assert |ops| <= |ops'| by { CountWithin(ops, ops'); }
    assert |ops'| <= |ops| by { CountWithin(ops', ops); }
  }

  lemma {:induction false} CountWithin(ops: seq<Op>, ops': seq<Op>)
    requires DistinctOpIds(ops) && forall o: Op :: o in ops ==> o in ops'
    ensures |ops| <= |ops'|
    decreases |ops|
  {
    if ops != [] {
      var front, op := ops[..|ops| - 1], ops[|ops| - 1];
      assert op in ops;
      var j :| 0 <= j < |ops'| && ops'[j] == op;
      var less := ops'[..j] + ops'[j + 1..];
      forall o | o in front ensures o in less {
        var i :| 0 <= i < |front| && front[i] == o;
        assert ops[i] == o && o in ops;
        var m :| 0 <= m < |ops'| && ops'[m] == o;
        assert less[if m < j then m else m - 1] == o;
      }
      CountWithin(front, less);
    }
  }

  lemma {:induction false} SameFileOutcome(before: Tree, path: string, ops: seq<Op>, ops': seq<Op>)
    requires AllShaped(ops) && AllShaped(ops') && DistinctOpIds(ops) && DistinctOpIds(ops') && SameElements(ops, ops')
    ensures FileOutcome(before, path, ops) == FileOutcome(before, path, ops')
  {
    SameCount(ops, ops');
    if HasCreate(ops) {
      var op :| op in ops && op.Create?;
      assert op in ops';
    } else {
      assert !HasCreate(ops');
      var edits, edits' := AsEdits(ops), AsEdits(ops');
      AsEditsHas(ops);
      AsEditsHas(ops');
      if path in before {
        OrderDoesNotMatter(Split(before[path]), edits, edits');
      }
    }
  }

  lemma {:induction false} AsEditsHas(ops: seq<Op>)
    requires AllShaped(ops) && !HasCreate(ops)
    ensures forall o: Edit :: o in AsEdits(ops) <==> o in ops
  {
    assert AsEdits(ops) == ops;
  }

  /** Two valid recipes with the same operations, listed in any two orders, do the same
      to every tree. */
  lemma {:induction false} RecipeOrderDoesNotMatter(before: Tree, ops: seq<Op>, ops': seq<Op>)
    requires ValidRecipe(ops) && ValidRecipe(ops') && SameElements(ops, ops')
    ensures Outcome(before, ops) == Outcome(before, ops')
  {
    forall path ensures PathOutcome(before, ops, path) == PathOutcome(before, ops', path) {
      SamePathOutcome(before, path, ops, ops');
    }
    assert Paths(ops) == Paths(ops');
    assert Applies(before, ops) <==> Applies(before, ops');
    if Applies(before, ops) {
      SameChange(before, ops, ops');
    }
  }

  lemma {:induction false} SamePathOutcome(before: Tree, path: string, ops: seq<Op>, ops': seq<Op>)
    requires ValidRecipe(ops) && ValidRecipe(ops') && SameElements(ops, ops')
    ensures PathOutcome(before, ops, path) == PathOutcome(before, ops', path)
  {
    OpsForShaped(ops, path);
    OpsForShaped(ops', path);
    OpsForDistinct(ops, path);
    OpsForDistinct(ops', path);
    forall o: Op ensures o in OpsFor(ops, path) <==> o in OpsFor(ops', path) {
      OpsForHas(ops, path, o);
      OpsForHas(ops', path, o);
    }
    SameFileOutcome(before, path, OpsFor(ops, path), OpsFor(ops', path));
  }

  lemma {:induction false} SameChange(before: Tree, ops: seq<Op>, ops': seq<Op>)
    requires AllShaped(ops) && AllShaped(ops') && Applies(before, ops) && Applies(before, ops')
    requires Paths(ops) == Paths(ops')
    requires forall path :: PathOutcome(before, ops, path) == PathOutcome(before, ops', path)
    ensures Changed(before, ops) == Changed(before, ops')
  {
    var x, y := Changed(before, ops), Changed(before, ops');
    forall path | path in x ensures x[path] == y[path] {
      assert path in Paths(ops) <==> path in Paths(ops');
    }
  }

  /** The file and everything put into it are terminated texts. */
  ghost predicate AllTerminated(before: string, edits: seq<Edit>)
  {
    Terminated(before) && forall e | e in edits && !e.Delete? :: Terminated(e.text)
  }

  /** What a valid recipe that applies makes of the text `before`: the text of the lines
      that the layout over original coordinates gives, which are the simultaneous splice
      if and only if every losing insertion commutes with what it is displaced across;
      where all texts are terminated, the text itself is the splice's exactly then. */
  ghost predicate EditedAsPromised(before: string, edits: seq<Edit>, after: string)
  {
    var original := Split(before);
    var lines, ties := Laid(original, SetOf(PatchesOf(edits)), CrossedLines(edits), 0), TiesCommute(original, edits);
    && after == Join(lines)
    && (lines == Spliced(original, edits) <==> ties)
    && (ties ==> after == Join(Spliced(original, edits)))
    && (AllTerminated(before, edits) ==> (after == Join(Spliced(original, edits)) <==> ties))
  }

  /** A valid recipe that applies edits every touched file as promised and leaves every
      other file as it was. */
  lemma {:induction false} RecipeIsSplice(before: Tree, ops: seq<Op>, path: string)
    requires ValidRecipe(ops) && Applies(before, ops)
    ensures var after := Outcome(before, ops).value;
      && (!Touches(ops, path) ==>
          (path in after <==> path in before) && (path in before ==> after[path] == before[path]))
      && (Touches(ops, path) && path in before ==>
          var mine := OpsFor(ops, path);
          && path in after && AllShaped(mine) && !HasCreate(mine)
          && EditedAsPromised(before[path], AsEdits(mine), after[path]))
  {
    assert Touches(ops, path) <==> path in Paths(ops);
    if Touches(ops, path) && path in before {
      var op :| op in ops && op.path == path;
      assert PathOutcome(before, ops, op.path).Some?;
      OpsForShaped(ops, path);
      OpsForDistinct(ops, path);
      KeepsPromise(before[path], AsEdits(OpsFor(ops, path)));
    }
  }

  lemma {:induction false} TerminatedIsClosed(before: string, edits: seq<Edit>)
    requires AllTerminated(before, edits)
    ensures ClosedEdits(Split(before), edits)
  {
    ClosedIffTerminated(before);
    forall e | e in edits ensures AllClosed(NewLines(e)) {
      if !e.Delete? {
        ClosedIffTerminated(e.text);
      }
    }
  }

  lemma {:induction false} KeepsPromise(before: string, edits: seq<Edit>)
    requires Accepts(Split(before), edits) && DistinctIds(edits)
    ensures EditedAsPromised(before, edits, Join(EditAll(Split(before), Descending(edits))))
  {
    var original := Split(before);
    ApplyIsLaid(original, edits);
    SpliceIffTiesCommute(original, edits);
    if AllTerminated(before, edits) {
      TerminatedIsClosed(before, edits);
      TextTellsSplice(original, edits);
    }
  }

  // ---- what applies ---------------------------------------------------------------------------------------

  /** The only operation on its path. */
  predicate StandsAlone(op: Op, ops: seq<Op>)
  {
    forall o | o in ops && o.path == op.path :: o == op
  }

  /** A new file is created by one operation, where none is. */
  predicate MayCreate(before: Tree, ops: seq<Op>, op: Op)
  {
    op.path !in before && StandsAlone(op, ops)
  }

  /** An edit finds its file and its place in it as recorded, and no other in its way. */
  ghost predicate MayEdit(before: Tree, ops: seq<Op>, op: Edit)
  {
    && op.path in before && UpToDate(op, Split(before[op.path]))
    && forall o | o in ops && o.path == op.path && o != op ::
         WellShaped(o) && !o.Create? && KeepApart(op, o)
  }

  lemma {:induction false} OneOpForPath(ops: seq<Op>, op: Op)
    requires AllShaped(ops) && DistinctOpIds(ops) && op in ops
    ensures |OpsFor(ops, op.path)| == 1 <==> StandsAlone(op, ops)
    ensures op in OpsFor(ops, op.path)
  {
    var mine := OpsFor(ops, op.path);
    OpsForDistinct(ops, op.path);
    forall o: Op ensures o in mine <==> o in ops && o.path == op.path {
      OpsForHas(ops, op.path, o);
    }
    var k :| 0 <= k < |mine| && mine[k] == op;
    if |mine| > 1 {
      var j := if k == 0 then 1 else 0;
      assert mine[j] in mine && mine[j] != op;
    }
  }

  lemma {:induction false} CreateApplies(before: Tree, ops: seq<Op>, op: Op)
    requires ValidRecipe(ops) && op in ops && op.Create?
    ensures PathOutcome(before, ops, op.path) == if MayCreate(before, ops, op) then Some(op.text) else None
  {
    OneOpForPath(ops, op);
    var mine := OpsFor(ops, op.path);
    assert HasCreate(mine);
    if |mine| == 1 {
      assert mine[0] == op;
    }
  }

  lemma {:induction false} SameKeptApart(original: seq<string>, mine: seq<Edit>)
    requires DistinctIds(mine)
    ensures Accepts(original, mine) <==>
      forall op | op in mine :: UpToDate(op, original) && forall o | o in mine && o != op :: KeepApart(op, o)
  {
    AcceptsIff(original, mine);
    if forall op | op in mine :: UpToDate(op, original) && forall o | o in mine && o != op :: KeepApart(op, o) {
      forall i, j | 0 <= i < j < |mine| ensures KeepApart(mine[i], mine[j]) {
        assert mine[i] in mine && mine[j] in mine && mine[i].id != mine[j].id;
      }
    }
    if Accepts(original, mine) {
      forall op, o | op in mine && o in mine && o != op ensures KeepApart(op, o) {
        var i :| 0 <= i < |mine| && mine[i] == op;
        var j :| 0 <= j < |mine| && mine[j] == o;
        assert KeepApart(mine[if i < j then i else j], mine[if i < j then j else i]);
      }
    }
  }

  lemma {:induction false} EditApplies(before: Tree, ops: seq<Op>, path: string)
    requires ValidRecipe(ops) && Touches(ops, path) && forall o | o in ops && o.path == path :: !o.Create?
    ensures PathOutcome(before, ops, path).Some? <==>
      forall o: Op | o in ops && o.path == path :: MayEdit(before, ops, o)
  {
    var mine := OpsFor(ops, path);
    OpsForShaped(ops, path);
    OpsForDistinct(ops, path);
    forall o: Op ensures o in mine <==> o in ops && o.path == path {
      OpsForHas(ops, path, o);
    }
    assert !HasCreate(mine);
    AsEditsHas(mine);
    if path in before {
      SameKeptApart(Split(before[path]), AsEdits(mine));
    }
  }

  /** A valid recipe applies to a tree if and only if each of its operations may be made; then a
      created file holds the text it was created with. */
  lemma {:induction false} RecipeApplies(before: Tree, ops: seq<Op>)
    requires ValidRecipe(ops)
    ensures Outcome(before, ops).Some? <==>
      forall op | op in ops :: if op.Create? then MayCreate(before, ops, op) else MayEdit(before, ops, op)
    ensures Outcome(before, ops).Some? ==>
      forall op | op in ops && op.Create? :: Outcome(before, ops).value[op.path] == op.text
  {
    forall op | op in ops && op.Create?
      ensures PathOutcome(before, ops, op.path) == if MayCreate(before, ops, op) then Some(op.text) else None
    {
      CreateApplies(before, ops, op);
    }
    forall op | op in ops && forall o | o in ops && o.path == op.path :: !o.Create?
      ensures PathOutcome(before, ops, op.path).Some? <==>
        forall o: Op | o in ops && o.path == op.path :: MayEdit(before, ops, o)
    {
      EditApplies(before, ops, op.path);
    }
    if forall op | op in ops :: if op.Create? then MayCreate(before, ops, op) else MayEdit(before, ops, op) {
      forall op | op in ops ensures PathOutcome(before, ops, op.path).Some? {
        MayBeMade(before, ops, op);
      }
    }
    if Applies(before, ops) {
      forall op | op in ops && !op.Create? ensures MayEdit(before, ops, op) {
        IsEdited(before, ops, op);
      }
    }
  }

  lemma {:induction false} MayBeMade(before: Tree, ops: seq<Op>, op: Op)
    requires ValidRecipe(ops) && op in ops
    requires forall o | o in ops :: if o.Create? then MayCreate(before, ops, o) else MayEdit(before, ops, o)
    ensures PathOutcome(before, ops, op.path).Some?
  {
    if c :| c in ops && c.path == op.path && c.Create? {
      CreateApplies(before, ops, c);
    } else {
      EditApplies(before, ops, op.path);
    }
  }

  lemma {:induction false} IsEdited(before: Tree, ops: seq<Op>, op: Op)
    requires ValidRecipe(ops) && op in ops && !op.Create? && PathOutcome(before, ops, op.path).Some?
    ensures MayEdit(before, ops, op)
  {
    if c :| c in ops && c.path == op.path && c.Create? {
      CreateApplies(before, ops, c);
    } else {
      EditApplies(before, ops, op.path);
    }
  }
}
