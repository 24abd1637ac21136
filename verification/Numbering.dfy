/** Operations for a list of paths, numbered across all of them. */
module Numbering {
  import opened Recipes
  import opened Trees
  import opened Deriving

  /** The operations for a path when numbered from a given number on. */
  type Maker = (string, nat) -> seq<Op>

  ghost function All(paths: seq<string>, f: Maker, n: nat): seq<Op>
    decreases |paths|
  {
    if paths == [] then [] else f(paths[0], n) + All(paths[1..], f, n + |f(paths[0], n)|)
  }

  /** Every operation is for the path it was made for, and the numbers run on. */
  ghost predicate Proper(f: Maker)
  {
    forall p, n: nat :: ForPath(f(p, n), p) && InOrder(f(p, n), n)
  }

  predicate ForPath(ops: seq<Op>, path: string)
  {
    forall op | op in ops :: op.path == path
  }

  predicate InOrder(ops: seq<Op>, n: nat)
  {
    forall k: nat | k < |ops| :: ops[k].id == Id(n + k)
  }

  lemma {:induction false} NumbersRunOn(paths: seq<string>, f: Maker, n: nat, k: nat)
    requires Proper(f) && k < |All(paths, f, n)|
    ensures All(paths, f, n)[k].id == Id(n + k)
    decreases |paths|
  {
    var ops := f(paths[0], n);
    assert InOrder(ops, n);
    if k >= |ops| {
      NumbersRunOn(paths[1..], f, n + |ops|, k - |ops|);
    }
  }

  lemma {:induction false} AllDistinct(paths: seq<string>, f: Maker, n: nat)
    requires Proper(f)
    ensures DistinctOpIds(All(paths, f, n))
  {
    var ops := All(paths, f, n);
    forall i: nat, j: nat | i < j < |ops| ensures ops[i].id != ops[j].id {
      NumbersRunOn(paths, f, n, i);
      NumbersRunOn(paths, f, n, j);
      if ops[i].id == ops[j].id {
        IdsAreDistinct(n + i, n + j);
      }
    }
  }

  lemma {:induction false} OpsForOnePath(ops: seq<Op>, path: string, q: string)
    requires ForPath(ops, path)
    ensures OpsFor(ops, q) == if q == path then ops else []
  {
    if ops != [] {
      assert ops[|ops| - 1] in ops;
      OpsForOnePath(ops[..|ops| - 1], path, q);
      assert ops == ops[..|ops| - 1] + [ops[|ops| - 1]];
    }
  }

  /** The operations of one path are those made for it, from some number on. */
  lemma {:induction false} OpsForPath(paths: seq<string>, f: Maker, n: nat, q: string) returns (m: nat)
    requires Proper(f) && NoDuplicates(paths)
    ensures OpsFor(All(paths, f, n), q) == if q in paths then f(q, m) else []
    decreases |paths|
  {
    m := n;
    if paths != [] {
      var p, rest, ops := paths[0], paths[1..], f(paths[0], n);
      FirstIsUnique(paths);
      AllSplit(paths, f, n, q);
      var m' := OpsForPath(rest, f, n + |ops|, q);
      if q != p {
        m := m';
      }
    }
  }

  lemma {:induction false} AllSplit(paths: seq<string>, f: Maker, n: nat, q: string)
    requires paths != [] && ForPath(f(paths[0], n), paths[0])
    ensures var ops := f(paths[0], n);
      OpsFor(All(paths, f, n), q) == (if q == paths[0] then ops else []) + OpsFor(All(paths[1..], f, n + |ops|), q)
  {
    var ops := f(paths[0], n);
    OpsForAppend(ops, All(paths[1..], f, n + |ops|), q);
    OpsForOnePath(ops, paths[0], q);
  }

  lemma {:induction false} FirstIsUnique(paths: seq<string>)
    requires NoDuplicates(paths) && paths != []
    ensures NoDuplicates(paths[1..]) && paths[0] !in paths[1..]
    ensures forall q :: q in paths <==> q == paths[0] || q in paths[1..]
  {
    assert paths == [paths[0]] + paths[1..];
  }

  /** `ops` and the operations for the paths from `k` on are all of them. */
  ghost predicate Partial(paths: seq<string>, f: Maker, k: nat, ops: seq<Op>)
    requires k <= |paths|
  {
    ops + All(paths[k..], f, 1 + |ops|) == All(paths, f, 1)
  }

  lemma {:induction false} NextPath(paths: seq<string>, f: Maker, k: nat, ops: seq<Op>)
    requires k < |paths| && Partial(paths, f, k, ops)
    ensures Partial(paths, f, k + 1, ops + f(paths[k], 1 + |ops|))
  {
    var mine := f(paths[k], 1 + |ops|);
    assert paths[k..][0] == paths[k] && paths[k..][1..] == paths[k + 1..];
    var rest := All(paths[k + 1..], f, 1 + |ops| + |mine|);
    assert ops + (mine + rest) == (ops + mine) + rest;
  }

  lemma {:induction false} FirstPath(paths: seq<string>, f: Maker)
    ensures Partial(paths, f, 0, [])
  {
    assert paths[0..] == paths && [] + All(paths, f, 1) == All(paths, f, 1);
  }

  lemma {:induction false} LastPath(paths: seq<string>, f: Maker, ops: seq<Op>)
    requires Partial(paths, f, |paths|, ops)
    ensures ops == All(paths, f, 1)
  {
    assert paths[|paths|..] == [] && ops + [] == ops;
  }
}
