/** Deriving a recipe for a whole tree, and the proof that it rebuilds the other tree. */
module RoundTrip {
  import opened Options
  import opened Lines
  import opened Recipes
  import opened Applying
  import opened Trees
  import opened Deriving
  import opened Numbering

  type Diff = (seq<string>, seq<string>) -> seq<OpCode>

  /** The operations for one path, numbered from `n`. */
  ghost function PathOps(before: Tree, after: Tree, path: string, diff: Diff, n: nat): seq<Op>
  {
    if path !in after then []
    else if path !in before then [Create(Id(n), path, after[path])]
    else if before[path] == after[path] then []
    else
      var a, b := Split(before[path]), Split(after[path]);
      var codes := diff(a, b);
      if DiffFrom(codes, a, b, 0, 0) then FileOps(path, a, b, codes, 0, 0, n) else []
  }

  ghost function Derived(before: Tree, after: Tree, diff: Diff): Maker
  {
    (path: string, n: nat) => PathOps(before, after, path, diff, n)
  }

  ghost predicate Listed(paths: seq<string>, after: Tree)
  {
    forall p :: p in paths <==> p in after
  }

  /** The operations for a whole tree. */
  ghost function TreeOps(before: Tree, after: Tree, paths: seq<string>, diff: Diff): seq<Op>
  {
    All(paths, Derived(before, after, diff), 1)
  }

  // ---- one file ------------------------------------------------------------------------------------

  /** The operations derived for a file pass the overlap and text checks, have no tie and
      turn its text into the other one; there are none only if the texts agree. */
  lemma {:induction false} FileRoundTrip(path: string, before: string, after: string, codes: seq<OpCode>, n: nat)
    requires DiffFrom(codes, Split(before), Split(after), 0, 0)
    ensures var ops := FileOps(path, Split(before), Split(after), codes, 0, 0, n);
      && Accepts(Split(before), ops) && TieSafe(ops)
      && Join(EditAll(Split(before), Descending(ops))) == after
      && (ops == [] ==> before == after)
  {
    var a, b := Split(before), Split(after);
    var ops := FileOps(path, a, b, codes, 0, 0, n);
    FileOpsAscend(path, a, b, codes, 0, 0, n);
    AscendingIsUpward(a, ops);
    var x := UpwardRebuilds(path, a, b, codes, 0, 0, n);
    assert a[..0] + x == x && b[0..] == b;
    JoinSplit(before);
    JoinSplit(after);
  }

  lemma {:induction false} FileOpsNumbered(path: string, a: seq<string>, b: seq<string>, codes: seq<OpCode>,
                                           i: nat, j: nat, n: nat, k: nat)
    requires RealLines(b) && DiffFrom(codes, a, b, i, j) && k < |FileOps(path, a, b, codes, i, j, n)|
    ensures FileOps(path, a, b, codes, i, j, n)[k].id == Id(n + k)
    decreases |codes|
  {
    var c, rest := codes[0], codes[1..];
    if c.tag.Equal? {
      FileOpsNumbered(path, a, b, rest, c.i2, c.j2, n, k);
    } else if k > 0 {
      FileOpsNumbered(path, a, b, rest, c.i2, c.j2, n + 1, k - 1);
    }
  }

  lemma {:induction false} PathOpsProper(before: Tree, after: Tree, path: string, diff: Diff, n: nat)
    ensures var ops := PathOps(before, after, path, diff, n);
      ForPath(ops, path) && InOrder(ops, n)
  {
    if path in after && path in before && before[path] != after[path] {
      var a, b := Split(before[path]), Split(after[path]);
      if DiffFrom(diff(a, b), a, b, 0, 0) {
        FileOpsAscend(path, a, b, diff(a, b), 0, 0, n);
        forall k: nat | k < |FileOps(path, a, b, diff(a, b), 0, 0, n)|
          ensures FileOps(path, a, b, diff(a, b), 0, 0, n)[k].id == Id(n + k)
        {
          FileOpsNumbered(path, a, b, diff(a, b), 0, 0, n, k);
        }
      }
    }
  }

  lemma {:induction false} DerivedIsProper(before: Tree, after: Tree, diff: Diff)
    ensures Proper(Derived(before, after, diff))
  {
    forall p, n: nat
      ensures ForPath(PathOps(before, after, p, diff, n), p) && InOrder(PathOps(before, after, p, diff, n), n)
    {
      PathOpsProper(before, after, p, diff, n);
    }
  }

  /** Neither a deleted file nor an empty new one. */
  predicate Derivable(before: Tree, after: Tree)
  {
    before.Keys <= after.Keys && forall p | p in after && p !in before :: after[p] != ""
  }

  lemma {:induction false} PathRoundTrip(before: Tree, after: Tree, path: string, diff: Diff, n: nat)
    requires Differ(diff) && path in after && Derivable(before, after)
    ensures var ops := PathOps(before, after, path, diff, n);
      && AllShaped(ops)
      && (ops != [] ==> FileOutcome(before, path, ops) == Some(after[path]))
      && (ops == [] <==> path in before && before[path] == after[path])
  {
    var ops := PathOps(before, after, path, diff, n);
    if path !in before {
      assert HasCreate(ops) by {
        assert ops[0] in ops;
      }
    } else if before[path] != after[path] {
      var a, b := Split(before[path]), Split(after[path]);
      FileRoundTrip(path, before[path], after[path], diff(a, b), n);
      var edits := FileOps(path, a, b, diff(a, b), 0, 0, n);
      EditsStay(edits, ops);
    }
  }

  lemma {:induction false} EditsStay(edits: seq<Edit>, ops: seq<Op>)
    requires edits == ops
    ensures AllShaped(ops) && !HasCreate(ops) && AsEdits(ops) == edits
  {
    forall op | op in ops ensures WellShaped(op) && !op.Create? {
      var i :| 0 <= i < |edits| && edits[i] == op;
      var e: Edit := edits[i];
    }
  }

  // ---- the whole tree --------------------------------------------------------------------------------

  /** What the tree's operations say about one path. */
  lemma {:induction false} TreeOpsAt(before: Tree, after: Tree, paths: seq<string>, diff: Diff, q: string)
    requires Differ(diff) && NoDuplicates(paths) && Listed(paths, after) && Derivable(before, after) && q in after
    ensures var ops := TreeOps(before, after, paths, diff);
      var mine := OpsFor(ops, q);
      && AllShaped(mine) && (mine != [] ==> FileOutcome(before, q, mine) == Some(after[q]))
      && (mine == [] <==> q in before && before[q] == after[q])
  {
    var f := Derived(before, after, diff);
    DerivedIsProper(before, after, diff);
    var m := OpsForPath(paths, f, 1, q);
    PathRoundTrip(before, after, q, diff, m);
  }

  lemma {:induction false} NothingElsewhere(before: Tree, after: Tree, paths: seq<string>, diff: Diff, q: string)
    requires NoDuplicates(paths) && Listed(paths, after) && q !in after
    ensures OpsFor(TreeOps(before, after, paths, diff), q) == []
  {
    DerivedIsProper(before, after, diff);
    var m := OpsForPath(paths, Derived(before, after, diff), 1, q);
  }

  lemma {:induction false} TouchesIff(ops: seq<Op>, q: string)
    ensures Touches(ops, q) <==> OpsFor(ops, q) != []
  {
    var mine := OpsFor(ops, q);
    if Touches(ops, q) {
      var op :| op in ops && op.path == q;
      OpsForHas(ops, q, op);
    }
    if mine != [] {
      OpsForHas(ops, q, mine[0]);
      assert mine[0] in mine;
    }
  }

  lemma {:induction false} TreeOpsShaped(before: Tree, after: Tree, paths: seq<string>, diff: Diff, op: Op)
    requires Differ(diff) && NoDuplicates(paths) && Listed(paths, after) && Derivable(before, after)
    requires op in TreeOps(before, after, paths, diff)
    ensures WellShaped(op) && op.path in after
  {
    OpsForHas(TreeOps(before, after, paths, diff), op.path, op);
    if op.path in after {
      TreeOpsAt(before, after, paths, diff, op.path);
    } else {
      NothingElsewhere(before, after, paths, diff, op.path);
    }
  }

  lemma {:induction false} TreeOutcomeAt(before: Tree, after: Tree, paths: seq<string>, diff: Diff, q: string)
    requires Differ(diff) && NoDuplicates(paths) && Listed(paths, after) && Derivable(before, after) && q in after
    requires AllShaped(TreeOps(before, after, paths, diff))
    ensures var ops := TreeOps(before, after, paths, diff);
      && (Touches(ops, q) ==> PathOutcome(before, ops, q) == Some(after[q]))
      && (Touches(ops, q) <==> !(q in before && before[q] == after[q]))
  {
    TreeOpsAt(before, after, paths, diff, q);
    TouchesIff(TreeOps(before, after, paths, diff), q);
  }

  /** Round trip: for every diff that meets its contract and every listing of the paths,
      the derived operations form a valid recipe that rebuilds the other tree exactly. */
  lemma {:induction false} DerivedRecipeRebuilds(before: Tree, after: Tree, paths: seq<string>, diff: Diff)
    requires Differ(diff) && NoDuplicates(paths) && Listed(paths, after) && Derivable(before, after)
    ensures var ops := TreeOps(before, after, paths, diff);
      && (ops == [] <==> before == after)
      && (before != after ==> ValidRecipe(ops) && Outcome(before, ops) == Some(after))
  {
    var ops := TreeOps(before, after, paths, diff);
    forall op | op in ops ensures WellShaped(op) && op.path in after {
      TreeOpsShaped(before, after, paths, diff, op);
    }
    DerivedIsProper(before, after, diff);
    AllDistinct(paths, Derived(before, after, diff), 1);
    forall q | q in after
      ensures Touches(ops, q) ==> PathOutcome(before, ops, q) == Some(after[q])
      ensures Touches(ops, q) <==> !(q in before && before[q] == after[q])
    {
      TreeOutcomeAt(before, after, paths, diff, q);
    }
    OutcomeIs(before, after, ops);
  }

  lemma {:induction false} OutcomeIs(before: Tree, after: Tree, ops: seq<Op>)
    requires AllShaped(ops) && before.Keys <= after.Keys && forall op | op in ops :: op.path in after
    requires forall q | q in after :: Touches(ops, q) ==> PathOutcome(before, ops, q) == Some(after[q])
    requires forall q | q in after :: Touches(ops, q) <==> !(q in before && before[q] == after[q])
    ensures Outcome(before, ops) == Some(after) && (ops == [] <==> before == after)
  {
    forall op | op in ops ensures PathOutcome(before, ops, op.path).Some? {
      assert Touches(ops, op.path);
    }
    forall q ensures Touches(ops, q) <==> q in Paths(ops) {
    }
    SameTree(before, after, Changed(before, ops), Paths(ops));
    if ops != [] {
      assert ops[0] in ops && Touches(ops, ops[0].path);
    } else {
      assert before == after;
    }
  }

  lemma {:induction false} SameTree(before: Tree, after: Tree, result: Tree, changed: set<string>)
    requires before.Keys <= after.Keys && changed <= after.Keys && result.Keys == before.Keys + changed
    requires forall q | q in changed :: result[q] == after[q]
    requires forall q | q in before && q !in changed :: result[q] == before[q]
    requires forall q | q in after :: q in changed <==> !(q in before && before[q] == after[q])
    ensures result == after
  {
  }

  // ---- the derivation itself ---------------------------------------------------------------------------

  datatype Derivation = Recipe(ops: seq<Op>) | DeletesFiles | EmptyCreation | NoChange | NotRebuilt

  /** `ops` and the operations for the opcodes from `k` on are all of them. */
  ghost predicate PartialFile(path: string, a: seq<string>, b: seq<string>, codes: seq<OpCode>, n: nat,
                              k: nat, i: nat, j: nat, ops: seq<Edit>)
    requires RealLines(b) && DiffFrom(codes, a, b, 0, 0) && k <= |codes|
  {
    && DiffFrom(codes[k..], a, b, i, j)
    && ops + FileOps(path, a, b, codes[k..], i, j, n + |ops|) == FileOps(path, a, b, codes, 0, 0, n)
  }

  lemma {:induction false} NextCode(path: string, a: seq<string>, b: seq<string>, codes: seq<OpCode>, n: nat,
                 k: nat, i: nat, j: nat, ops: seq<Edit>)
    requires RealLines(b) && DiffFrom(codes, a, b, 0, 0) && k < |codes|
    requires PartialFile(path, a, b, codes, n, k, i, j, ops)
    ensures var c := codes[k];
      && Segment(c, a, b)
      && PartialFile(path, a, b, codes, n, k + 1, c.i2, c.j2,
                     if c.tag.Equal? then ops else ops + [CodeOp(path, a, b, c, n + |ops|)])
  {
    var c, rest := codes[k], codes[k + 1..];
    assert codes[k..][0] == c && codes[k..][1..] == rest;
    if !c.tag.Equal? {
      var op := CodeOp(path, a, b, c, n + |ops|);
      var later := FileOps(path, a, b, rest, c.i2, c.j2, n + |ops| + 1);
      assert ops + ([op] + later) == (ops + [op]) + later;
    }
  }

  /** The loop over the opcodes of one changed file. */
  method DeriveFile(path: string, a: seq<string>, b: seq<string>, codes: seq<OpCode>, n: nat) returns (ops: seq<Edit>)
    requires RealLines(b) && DiffFrom(codes, a, b, 0, 0)
    ensures ops == FileOps(path, a, b, codes, 0, 0, n)
  {
    ops := [];
    ghost var i, j := 0, 0;
    assert codes[0..] == codes;
    for k := 0 to |codes|
      invariant PartialFile(path, a, b, codes, n, k, i, j, ops)
    {
      var c := codes[k];
      NextCode(path, a, b, codes, n, k, i, j, ops);
      i, j := c.i2, c.j2;
      if !c.tag.Equal? {
        ops := ops + [CodeOp(path, a, b, c, n + |ops|)];
      }
    }
    assert codes[|codes|..] == [] && ops + [] == ops;
  }

  /** One path of the loop over the tree; an empty new file has no valid operation. */
  method DerivePath(before: Tree, after: Tree, path: string, diff: Diff, n: nat) returns (r: Option<seq<Op>>)
    requires Differ(diff) && path in after
    ensures r == if path !in before && after[path] == "" then None else Some(PathOps(before, after, path, diff, n))
  {
    if path !in before {
      if after[path] == "" {
        return None;
      }
      return Some([Create(Id(n), path, after[path])]);
    }
    if before[path] == after[path] {
      return Some([]);
    }
    var a, b := Split(before[path]), Split(after[path]);
    var ops := DeriveFile(path, a, b, diff(a, b), n);
    return Some(ops);
  }

  predicate Sorted(paths: seq<string>)
  {
    forall i, j | 0 <= i < j < |paths| :: LexLeq(paths[i], paths[j])
  }

  /** Where `path` goes in a sorted list. */
  method FindPlace(paths: seq<string>, path: string) returns (k: nat)
    requires Sorted(paths) && path !in paths
    ensures k <= |paths|
    ensures forall i | 0 <= i < k :: LexLeq(paths[i], path)
    ensures forall i | k <= i < |paths| :: LexLeq(path, paths[i])
  {
    k := 0;
    while k < |paths| && LexLeq(paths[k], path)
      invariant k <= |paths|
      invariant forall i | 0 <= i < k :: LexLeq(paths[i], path)
    {
      k := k + 1;
    }
    forall i | k <= i < |paths| ensures LexLeq(path, paths[i]) {
      LexTotal(path, paths[k]);
      if i > k {
        LexTransitive(path, paths[k], paths[i]);
      }
    }
  }

  method SortedPaths(keys: set<string>) returns (paths: seq<string>)
    ensures NoDuplicates(paths) && Sorted(paths) && forall p :: p in paths <==> p in keys
  {
    paths := [];
    var left := keys;
    while left != {}
      invariant NoDuplicates(paths) && Sorted(paths) && left <= keys
      invariant forall p :: p in paths <==> p in keys && p !in left
      decreases |left|
    {
      var p :| p in left;
      var k := FindPlace(paths, p);
      ghost var was := paths;
      paths := paths[..k] + [p] + paths[k..];
      assert forall q :: q in paths <==> q == p || q in was by {
        assert was == was[..k] + was[k..];
      }
      left := left - {p};
    }
  }

  predicate NoEmptyCreation(before: Tree, after: Tree, paths: seq<string>)
    requires Listed(paths, after)
  {
    forall p | p in paths :: p in before || after[p] != ""
  }

  /** The loop over the paths. */
  method DeriveTree(before: Tree, after: Tree, paths: seq<string>, diff: Diff) returns (r: Option<seq<Op>>)
    requires Differ(diff) && Listed(paths, after)
    ensures r == if NoEmptyCreation(before, after, paths) then Some(TreeOps(before, after, paths, diff)) else None
  {
    var ops: seq<Op> := [];
    ghost var f := Derived(before, after, diff);
    FirstPath(paths, f);
    for k := 0 to |paths|
      invariant forall i | 0 <= i < k :: paths[i] in before || after[paths[i]] != ""
      invariant Partial(paths, f, k, ops)
    {
      var path := paths[k];
      assert path in paths;
      var mine := DerivePath(before, after, path, diff, 1 + |ops|);
      if mine.None? {
        return None;
      }
      NextPath(paths, f, k, ops);
      ops := ops + mine.value;
    }
    LastPath(paths, f, ops);
    return Some(ops);
  }

  /** Every recipe that comes out rebuilds `after` from `before`; deleted files, empty
      new files and unchanged trees are the only reasons why none does. */
  method Derive(before: Tree, after: Tree, diff: Diff) returns (r: Derivation)
    requires Differ(diff)
    ensures r.DeletesFiles? <==> !(before.Keys <= after.Keys)
    ensures r.EmptyCreation? <==> before.Keys <= after.Keys && !Derivable(before, after)
    ensures r.NoChange? <==> before == after
    ensures r.Recipe? ==> ValidRecipe(r.ops) && Outcome(before, r.ops) == Some(after)
    ensures !r.NotRebuilt?
  {
    if !(before.Keys <= after.Keys) {
      return DeletesFiles;
    }
    var paths := SortedPaths(before.Keys + after.Keys);
    assert Listed(paths, after);
    var derived := DeriveTree(before, after, paths, diff);
    assert NoEmptyCreation(before, after, paths) <==> Derivable(before, after);
    if derived.None? {
      return EmptyCreation;
    }
    var ops := derived.value;
    DerivedRecipeRebuilds(before, after, paths, diff);
    if ops == [] {
      return NoChange;
    }
    var rebuilt := ApplyRecipe(before, ops);
    if rebuilt != Some(after) {
      return NotRebuilt;
    }
    return Recipe(ops);
  }
}
