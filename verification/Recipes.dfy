/** Edit recipes: operations in original line coordinates, applied bottom-up. */
module Recipes {
  import opened Lines

  /** A hash of a text is represented by the text itself. */
  datatype Op =
    | Create(id: string, path: string, text: string)
    | Insert(id: string, path: string, line: nat, anchor: string, text: string)
    | Replace(id: string, path: string, first: nat, last: nat, before: string, text: string)
    | Delete(id: string, path: string, first: nat, last: nat, before: string)

  /** The shape rules an operation is validated against. */
  predicate WellShaped(op: Op)
  {
    match op
    case Create(_, _, text) => text != ""
    case Insert(_, _, _, _, text) => text != ""
    case Replace(_, _, first, last, _, text) => 1 <= first <= last && text != ""
    case Delete(_, _, first, last, _) => 1 <= first <= last
  }

  /** An operation on an existing file. */
  type Edit = op: Op | WellShaped(op) && !op.Create? witness Delete("", "", 1, 1, "")

  function Start(op: Edit): nat
  {
    if op.Insert? then op.line else op.first
  }

  /** Positions of a file of n lines: slot 2g is the place after line g, slot 2g - 1 is
      line g itself.  Every edit then occupies an interval of slots. */
  function Lo(op: Edit): nat
  {
    if op.Insert? then 2 * op.line else 2 * op.first - 1
  }

  function Hi(op: Edit): nat
  {
    if op.Insert? then 2 * op.line else 2 * op.last - 1
  }

  predicate Covers(op: Edit, slot: nat)
  {
    Lo(op) <= slot <= Hi(op)
  }

  predicate Clash(a: Edit, b: Edit)
  {
    Lo(a) <= Hi(b) && Lo(b) <= Hi(a)
  }

  predicate NoClash(ops: seq<Edit>)
  {
    forall i, j | 0 <= i < j < |ops| :: !Clash(ops[i], ops[j])
  }

  function NewLines(op: Edit): seq<string>
  {
    if op.Delete? then [] else Split(op.text)
  }

  // ---- validation ----------------------------------------------------------------------------

  predicate Free(op: Edit, ops: seq<Edit>)
  {
    forall o | o in ops :: !Clash(o, op)
  }

  /** The insertions of `ops`, or the regions, in order. */
  function Kind(ops: seq<Edit>, insertions: bool): (r: seq<Edit>)
    ensures forall op: Edit :: op in r <==> op in ops && op.Insert? == insertions
  {
    if ops == [] then []
    else
      var op, before := ops[|ops| - 1], Kind(ops[..|ops| - 1], insertions);
      assert ops == ops[..|ops| - 1] + [op];
      if op.Insert? == insertions then before + [op] else before
  }

  lemma {:induction false} NoClashAppend(ops: seq<Edit>, op: Edit)
    ensures NoClash(ops + [op]) <==> NoClash(ops) && Free(op, ops)
  {
    var all := ops + [op];
    if NoClash(all) {
      forall i, j | 0 <= i < j < |ops| ensures !Clash(ops[i], ops[j]) {
        assert !Clash(all[i], all[j]);
      }
      forall o | o in ops ensures !Clash(o, op) {
        var i :| 0 <= i < |ops| && ops[i] == o;
        assert !Clash(all[i], all[|ops|]);
      }
    }
  }

  predicate Apart(insertions: seq<Edit>, regions: seq<Edit>)
  {
    forall p, o | p in insertions && o in regions :: !Clash(o, p)
  }

  lemma {:induction false} FreeByKind(op: Edit, ops: seq<Edit>)
    ensures Free(op, ops) <==> Free(op, Kind(ops, true)) && Free(op, Kind(ops, false))
  {
  }

  lemma {:induction false} ApartAppend(insertions: seq<Edit>, regions: seq<Edit>, op: Edit)
    ensures Apart(insertions + [op], regions) <==> Apart(insertions, regions) && Free(op, regions)
    ensures Apart(insertions, regions + [op]) <==> Apart(insertions, regions) && Free(op, insertions)
  {
    assert op in insertions + [op] && op in regions + [op];
  }

  /** Checking each kind by itself and then insertions against regions is enough. */
  lemma {:induction false} ClashByKind(ops: seq<Edit>)
    ensures NoClash(ops) <==>
      NoClash(Kind(ops, true)) && NoClash(Kind(ops, false)) && Apart(Kind(ops, true), Kind(ops, false))
  {
    if ops != [] {
      var front, op := ops[..|ops| - 1], ops[|ops| - 1];
      assert ops == front + [op] && op in ops;
      ClashByKind(front);
      NoClashAppend(front, op);
      FreeByKind(op, front);
      NoClashAppend(Kind(front, op.Insert?), op);
      ApartAppend(Kind(front, true), Kind(front, false), op);
    }
  }

  predicate SharesLine(op: Edit, insertions: seq<Edit>)
    requires op.Insert?
  {
    exists o :: o in insertions && o.Insert? && o.line == op.line
  }

  predicate Overlaps(op: Edit, regions: seq<Edit>)
    requires !op.Insert?
  {
    exists o :: o in regions && !o.Insert? && op.first <= o.last && o.first <= op.last
  }

  predicate FallsInside(insertions: seq<Edit>, regions: seq<Edit>)
  {
    exists p, o :: p in insertions && o in regions && p.Insert? && !o.Insert? && o.first <= p.line < o.last
  }

  lemma {:induction false} ClashMeans(op: Edit, insertions: seq<Edit>, regions: seq<Edit>)
    requires (forall o | o in insertions :: o.Insert?) && (forall o | o in regions :: !o.Insert?)
    ensures op.Insert? ==> (SharesLine(op, insertions) <==> !Free(op, insertions))
    ensures !op.Insert? ==> (Overlaps(op, regions) <==> !Free(op, regions))
    ensures FallsInside(insertions, regions) <==> !Apart(insertions, regions)
  {
    if !Apart(insertions, regions) {
      var p, o :| p in insertions && o in regions && Clash(o, p);
      assert o.first <= p.line < o.last;
    }
  }

  /** Regions must not overlap, insertions must not share a line, and no insertion may
      fall inside a region: together, no two operations clash. */
  method ValidateNonOverlapping(ops: seq<Edit>) returns (ok: bool)
    ensures ok <==> NoClash(ops)
  {
    var occupied: seq<Edit>, insertions: seq<Edit> := [], [];
    for k := 0 to |ops|
      invariant insertions == Kind(ops[..k], true) && occupied == Kind(ops[..k], false)
      invariant NoClash(insertions) && NoClash(occupied)
    {
      var op := ops[k];
      assert op in ops && ops[..k + 1][..k] == ops[..k];
      ClashMeans(op, insertions, occupied);
      if op.Insert? {
        NoClashAppend(insertions, op);
        if SharesLine(op, insertions) {
          PrefixClash(ops, k + 1, true);
          return false;
        }
        insertions := insertions + [op];
      } else {
        NoClashAppend(occupied, op);
        if Overlaps(op, occupied) {
          PrefixClash(ops, k + 1, false);
          return false;
        }
        occupied := occupied + [op];
      }
    }
    assert ops[..|ops|] == ops;
    ClashByKind(ops);
    ok := !FallsInside(insertions, occupied);
    if ops != [] {
      assert ops[0] in ops;
      ClashMeans(ops[0], insertions, occupied);
    }
  }

  lemma {:induction false} PrefixClash(ops: seq<Edit>, k: nat, insertions: bool)
    requires k <= |ops|
    requires !NoClash(Kind(ops[..k], insertions))
    ensures !NoClash(ops)
  {
    ClashByKind(ops[..k]);
    var i, j :| 0 <= i < j < k && Clash(ops[..k][i], ops[..k][j]);
    assert Clash(ops[i], ops[j]);
  }
}
