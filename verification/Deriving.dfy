/** Deriving a recipe from two trees with a line diff, and the round trip. */
module Deriving {
  import opened Lines
  import opened Recipes
  import opened Splicing
  import opened Applying

  // ---- what a line diff promises -------------------------------------------------------------------

  datatype Tag = Equal | Replaced | Deleted | Inserted

  /** Lines i1 .. i2 of the one side against lines j1 .. j2 of the other. */
  datatype OpCode = OpCode(tag: Tag, i1: nat, i2: nat, j1: nat, j2: nat)

  predicate Segment(c: OpCode, a: seq<string>, b: seq<string>)
  {
    && c.i1 <= c.i2 <= |a| && c.j1 <= c.j2 <= |b|
    && match c.tag
       case Equal => c.i1 < c.i2 && a[c.i1..c.i2] == b[c.j1..c.j2]
       case Replaced => c.i1 < c.i2 && c.j1 < c.j2
       case Deleted => c.i1 < c.i2 && c.j1 == c.j2
       case Inserted => c.i1 == c.i2 && c.j1 < c.j2
  }

  /** The opcodes cover both sides from (i, j) to the end without gaps, and no two
      differing ones are neighbours. */
  predicate DiffFrom(codes: seq<OpCode>, a: seq<string>, b: seq<string>, i: nat, j: nat)
  {
    if codes == [] then i == |a| && j == |b|
    else
      var c := codes[0];
      && Segment(c, a, b) && c.i1 == i && c.j1 == j
      && (c.tag.Equal? || |codes| == 1 || codes[1].tag.Equal?)
      && DiffFrom(codes[1..], a, b, c.i2, c.j2)
  }

  ghost predicate Differ(diff: (seq<string>, seq<string>) -> seq<OpCode>)
  {
    forall a, b :: DiffFrom(diff(a, b), a, b, 0, 0)
  }

  // ---- operation identifiers ---------------------------------------------------------------------

  function Digit(d: nat): char
    requires d < 10
  {
    (d + 48) as char
  }

  function Digits(n: nat): string
  {
    if n < 10 then [Digit(n)] else Digits(n / 10) + [Digit(n % 10)]
  }

  function Padded(s: string): string
    decreases 3 - |s|
  {
    if |s| >= 3 then s else Padded(['0'] + s)
  }

  function Id(n: nat): string
  {
    "op-" + Padded(Digits(n))
  }

  function Value(s: string): int
  {
    if s == [] then 0 else 10 * Value(s[..|s| - 1]) + (s[|s| - 1] as int - 48)
  }

  lemma {:induction false} ValueOfDigits(n: nat)
    ensures Value(Digits(n)) == n
  {
    if n >= 10 {
      ValueOfDigits(n / 10);
      assert Digits(n)[..|Digits(n)| - 1] == Digits(n / 10);
    }
  }

  lemma {:induction false} LeadingZero(s: string)
    ensures Value(['0'] + s) == Value(s)
  {
    var t := ['0'] + s;
    if s != [] {
      LeadingZero(s[..|s| - 1]);
      assert t[..|t| - 1] == ['0'] + s[..|s| - 1];
    }
  }

  lemma {:induction false} ValueOfPadded(s: string)
    ensures Value(Padded(s)) == Value(s)
    decreases 3 - |s|
  {
    if |s| < 3 {
      LeadingZero(s);
      ValueOfPadded(['0'] + s);
    }
  }

  lemma {:induction false} IdsAreDistinct(m: nat, n: nat)
    requires Id(m) == Id(n)
    ensures m == n
  {
    ValueOfDigits(m);
    ValueOfDigits(n);
    ValueOfPadded(Digits(m));
    ValueOfPadded(Digits(n));
    assert Padded(Digits(m)) == Id(m)[3..] && Padded(Digits(n)) == Id(n)[3..];
  }

  // ---- the operations of one file ----------------------------------------------------------------

  predicate RealLines(lines: seq<string>)
  {
    forall l | l in lines :: l != ""
  }

  lemma {:induction false} SomeText(lines: seq<string>, from: nat, to: nat)
    requires RealLines(lines) && from < to <= |lines|
    ensures Join(lines[from..to]) != ""
  {
    var part := lines[from..to];
    assert part[0] == lines[from] && lines[from] in lines;
    JoinNonEmpty(part);
  }

  /** The operation for one differing opcode. */
  function CodeOp(path: string, a: seq<string>, b: seq<string>, c: OpCode, n: nat): (op: Edit)
    requires RealLines(b) && Segment(c, a, b) && !c.tag.Equal?
    ensures op.path == path && op.id == Id(n) && Fits(op, a)
    ensures op.Insert? <==> c.tag.Inserted?
    ensures op.Insert? ==> op.line == c.i1
    ensures !op.Insert? ==> op.first == c.i1 + 1 && op.last == c.i2
  {
    var text := Join(b[c.j1..c.j2]);
    if c.tag.Inserted? then
      SomeText(b, c.j1, c.j2);
      Insert(Id(n), path, c.i1, if c.i1 == 0 then "" else a[c.i1 - 1], text)
    else if c.tag.Deleted? then Delete(Id(n), path, c.i1 + 1, c.i2, Join(a[c.i1..c.i2]))
    else
      SomeText(b, c.j1, c.j2);
      Replace(Id(n), path, c.i1 + 1, c.i2, Join(a[c.i1..c.i2]), text)
  }

  function FileOps(path: string, a: seq<string>, b: seq<string>, codes: seq<OpCode>, i: nat, j: nat,
                   n: nat): (ops: seq<Edit>)
    requires RealLines(b) && DiffFrom(codes, a, b, i, j)
    decreases |codes|
  {
    if codes == [] then []
    else
      var c := codes[0];
      if c.tag.Equal? then FileOps(path, a, b, codes[1..], c.i2, c.j2, n)
      else [CodeOp(path, a, b, c, n)] + FileOps(path, a, b, codes[1..], c.i2, c.j2, n + 1)
  }

  /** Where the operations for the rest of a diff can lie. */
  predicate Beyond(codes: seq<OpCode>, i: nat, op: Edit)
  {
    if codes != [] && codes[0].tag.Equal? then Start(op) >= i + 1 && Lo(op) >= 2 * i + 2
    else Start(op) >= i && Lo(op) >= 2 * i
  }

  /** Lowest line first, no two on the same line and no two clashing. */
  predicate Ascending(ops: seq<Edit>)
  {
    forall i, j | 0 <= i < j < |ops| :: Precedes(ops[i], ops[j])
  }

  predicate Precedes(a: Edit, b: Edit)
  {
    Start(a) < Start(b) && Hi(a) < Lo(b)
  }

  lemma {:induction false} FileOpsAscend(path: string, a: seq<string>, b: seq<string>, codes: seq<OpCode>,
                                         i: nat, j: nat, n: nat)
    requires RealLines(b) && DiffFrom(codes, a, b, i, j)
    ensures var ops := FileOps(path, a, b, codes, i, j, n);
      && Ascending(ops)
      && (forall op | op in ops :: Beyond(codes, i, op) && op.path == path && Fits(op, a))
    decreases |codes|
  {
    if codes != [] {
      var c, rest := codes[0], codes[1..];
      var m := if c.tag.Equal? then n else n + 1;
      FileOpsAscend(path, a, b, rest, c.i2, c.j2, m);
      var later := FileOps(path, a, b, rest, c.i2, c.j2, m);
      assert rest != [] ==> rest[0] == codes[1];
      if !c.tag.Equal? {
        var op := CodeOp(path, a, b, c, n);
        forall o | o in later ensures Precedes(op, o) && Beyond(codes, i, o) {
          assert Beyond(rest, c.i2, o);
          RestIsEqual(codes, a, b, i, j, later, n, path);
        }
      }
    }
  }

  /** After a differing opcode, either nothing is left or an equal one comes. */
  lemma {:induction false} RestIsEqual(codes: seq<OpCode>, a: seq<string>, b: seq<string>, i: nat, j: nat,
                                       later: seq<Edit>, n: nat, path: string)
    requires RealLines(b) && DiffFrom(codes, a, b, i, j) && codes != [] && !codes[0].tag.Equal?
    requires later == FileOps(path, a, b, codes[1..], codes[0].i2, codes[0].j2, n + 1)
    ensures later != [] ==> |codes| > 1 && codes[1].tag.Equal?
  {
  }

  // ---- applying them from the last to the first ----------------------------------------------------

  function Upward(lines: seq<string>, ops: seq<Edit>): seq<string>
  {
    if ops == [] then lines else ApplyPatch(Upward(lines, ops[1..]), PatchOf(ops[0]))
  }

  lemma {:induction false} PlaceLast(op: Edit, ops: seq<Edit>)
    requires forall o | o in ops :: Start(op) < Start(o)
    ensures Place(op, ops) == ops + [op]
  {
    if ops != [] {
      assert ops[0] in ops;
      PlaceLast(op, ops[1..]);
    }
  }

  lemma {:induction false} AscendingIsUpward(lines: seq<string>, ops: seq<Edit>)
    requires Ascending(ops)
    ensures EditAll(lines, Descending(ops)) == Upward(lines, ops)
    ensures NoClash(ops) && TieSafe(ops)
  {
    if ops != [] {
      var later := ops[1..];
      AscendingIsUpward(lines, later);
      forall o | o in Descending(later) ensures Start(ops[0]) < Start(o) {
        var k :| 0 <= k < |later| && later[k] == o;
        assert Precedes(ops[0], ops[k + 1]);
      }
      PlaceLast(ops[0], Descending(later));
      EditLast(lines, Descending(later), ops[0]);
    }
    AscendingHasNoTie(ops);
  }

  lemma {:induction false} EditLast(lines: seq<string>, ops: seq<Edit>, op: Edit)
    ensures EditAll(lines, ops + [op]) == ApplyPatch(EditAll(lines, ops), PatchOf(op))
  {
    assert PatchesOf(ops + [op]) == PatchesOf(ops) + [PatchOf(op)];
    ApplyPatchesAppend(lines, PatchesOf(ops), [PatchOf(op)]);
    ApplyOne(EditAll(lines, ops), PatchOf(op));
  }

  lemma {:induction false} ApplyOne(lines: seq<string>, p: Patch)
    ensures ApplyPatches(lines, [p]) == ApplyPatch(lines, p)
  {
  }

  lemma {:induction false} AscendingHasNoTie(ops: seq<Edit>)
    requires Ascending(ops)
    ensures NoClash(ops) && TieSafe(ops)
  {
    forall a, b | a in ops && b in ops ensures !LosingTie(a, b) {
      var i, j :| 0 <= i < |ops| && 0 <= j < |ops| && ops[i] == a && ops[j] == b;
      assert i < j ==> Precedes(a, b);
      assert j < i ==> Precedes(b, a);
    }
    forall i, j | 0 <= i < j < |ops| ensures !Clash(ops[i], ops[j]) {
      assert Precedes(ops[i], ops[j]);
    }
  }

  /** The text that the lines from (i, j) on come to is the other side's. */
  lemma {:induction false} UpwardRebuilds(path: string, a: seq<string>, b: seq<string>, codes: seq<OpCode>,
                                          i: nat, j: nat, n: nat) returns (x: seq<string>)
    requires RealLines(b) && DiffFrom(codes, a, b, i, j) && i <= |a| && j <= |b|
    ensures Upward(a, FileOps(path, a, b, codes, i, j, n)) == a[..i] + x
    ensures Join(x) == Join(b[j..])
    decreases |codes|
  {
    if codes == [] {
      x := [];
      assert a[..i] + x == a && b[j..] == [];
    } else {
      var c, rest := codes[0], codes[1..];
      var m := if c.tag.Equal? then n else n + 1;
      var y := UpwardRebuilds(path, a, b, rest, c.i2, c.j2, m);
      if c.tag.Equal? {
        x := a[c.i1..c.i2] + y;
        EqualStep(a, b, c, y);
      } else {
        var op, later := CodeOp(path, a, b, c, n), FileOps(path, a, b, rest, c.i2, c.j2, m);
        x := NewLines(op) + y;
        CodeStep(path, a, b, c, n, y);
        UpwardNext(a, op, later);
      }
    }
  }

  lemma {:induction false} UpwardNext(lines: seq<string>, op: Edit, later: seq<Edit>)
    ensures Upward(lines, [op] + later) == ApplyPatch(Upward(lines, later), PatchOf(op))
  {
    assert ([op] + later)[1..] == later;
  }

  lemma {:induction false} EqualStep(a: seq<string>, b: seq<string>, c: OpCode, y: seq<string>)
    requires Segment(c, a, b) && c.tag.Equal? && Join(y) == Join(b[c.j2..])
    ensures a[..c.i2] + y == a[..c.i1] + (a[c.i1..c.i2] + y)
    ensures Join(a[c.i1..c.i2] + y) == Join(b[c.j1..])
  {
    JoinParts(b, c.j1, c.j2);
    JoinAppend(a[c.i1..c.i2], y);
    assert a[..c.i2] == a[..c.i1] + a[c.i1..c.i2];
  }

  lemma {:induction false} JoinParts(b: seq<string>, j1: nat, j2: nat)
    requires j1 <= j2 <= |b|
    ensures Join(b[j1..]) == Join(b[j1..j2]) + Join(b[j2..])
  {
    assert b[j1..] == b[j1..j2] + b[j2..];
    JoinAppend(b[j1..j2], b[j2..]);
  }

  lemma {:induction false} NewLinesRead(path: string, a: seq<string>, b: seq<string>, c: OpCode, n: nat)
    requires RealLines(b) && Segment(c, a, b) && !c.tag.Equal?
    ensures Join(NewLines(CodeOp(path, a, b, c, n))) == Join(b[c.j1..c.j2])
  {
    if c.tag.Deleted? {
      assert b[c.j1..c.j2] == [];
    } else {
      JoinSplit(Join(b[c.j1..c.j2]));
    }
  }

  lemma {:induction false} CodeStep(path: string, a: seq<string>, b: seq<string>, c: OpCode, n: nat, y: seq<string>)
    requires RealLines(b) && Segment(c, a, b) && !c.tag.Equal? && Join(y) == Join(b[c.j2..])
    ensures var op := CodeOp(path, a, b, c, n);
      && ApplyPatch(a[..c.i2] + y, PatchOf(op)) == a[..c.i1] + (NewLines(op) + y)
      && Join(NewLines(op) + y) == Join(b[c.j1..])
  {
    var op := CodeOp(path, a, b, c, n);
    JoinParts(b, c.j1, c.j2);
    JoinAppend(NewLines(op), y);
    NewLinesRead(path, a, b, c, n);
    PatchMeans(a[..c.i2] + y, op);
    AssignAt(a, c.i1, c.i2, NewLines(op), y);
  }

  lemma {:induction false} AssignAt(a: seq<string>, i1: nat, i2: nat, new_: seq<string>, y: seq<string>)
    requires i1 <= i2 <= |a|
    ensures Assign(a[..i2] + y, i1, i2, new_) == a[..i1] + (new_ + y)
  {
    var u := a[..i2] + y;
    assert u[..i1] == a[..i1] && u[i2..] == y;
  }

  lemma {:induction false} DigitsRead()
    ensures Digits(1) == "1" && Digits(42) == "42" && Digits(1000) == "1000"
  {
    assert Digits(42) == Digits(4) + [Digit(2)] && Digits(4) == "4";
    assert Digits(10) == Digits(1) + [Digit(0)] == "10" && Digits(100) == Digits(10) + [Digit(0)] == "100";
    assert Digits(1000) == Digits(100) + [Digit(0)];
  }

  lemma {:induction false} PaddingReads()
    ensures Padded("1") == "001" && Padded("42") == "042" && Padded("1000") == "1000"
  {
    assert ['0'] + "1" == "01" && ['0'] + "01" == "001" && ['0'] + "42" == "042";
    assert Padded("001") == "001" && Padded("01") == Padded("001") && Padded("1") == Padded("01");
    assert Padded("042") == "042" && Padded("42") == Padded("042");
  }

  /** Identifiers as they are written, zero-padded to three digits. */
  lemma {:induction false} IdsRead()
    ensures Id(1) == "op-001" && Id(42) == "op-042" && Id(1000) == "op-1000"
  {
    DigitsRead();
    PaddingReads();
  }
}
