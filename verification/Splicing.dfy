/** Patching a list of lines: one patch after the other from the bottom up, and all
    patches at once against the original. */
module Splicing {
  import opened Bounds

  /** Positions of a list of n lines: slot 2g is the place after line g, slot 2g - 1 is
      line g itself.  A patch puts `lines` in the place of slots `lo .. hi`. */
  datatype Patch = Patch(lo: nat, hi: nat, lines: seq<string>) {
    predicate Covers(slot: nat)
    {
      lo <= slot <= hi
    }
  }

  /** The number of lines that end before slot `slot`. */
  function Half(slot: nat): (m: nat)
    ensures 2 * m <= slot <= 2 * m + 1
  {
    if slot < 2 then 0 else 1 + Half(slot - 2)
  }

  /** List slice assignment; bounds beyond the end are clamped. */
  function Assign(lines: seq<string>, from: nat, to: nat, new_: seq<string>): seq<string>
  {
    lines[..Min(from, |lines|)] + new_ + lines[Min(to, |lines|)..]
  }

  function ApplyPatch(lines: seq<string>, p: Patch): seq<string>
  {
    Assign(lines, Half(p.lo), Half(p.hi + 1), p.lines)
  }

  function ApplyPatches(lines: seq<string>, ps: seq<Patch>): seq<string>
    decreases |ps|
  {
    if ps == [] then lines else ApplyPatches(ApplyPatch(lines, ps[0]), ps[1..])
  }

  lemma {:induction false} ApplyPatchesAppend(lines: seq<string>, ps: seq<Patch>, qs: seq<Patch>)
    ensures ApplyPatches(lines, ps + qs) == ApplyPatches(ApplyPatches(lines, ps), qs)
    decreases |ps|
  {
    if ps == [] {
      assert ps + qs == qs;
    } else {
      assert (ps + qs)[1..] == ps[1..] + qs;
      ApplyPatchesAppend(ApplyPatch(lines, ps[0]), ps[1..], qs);
    }
  }

  predicate Within(ps: seq<Patch>, n: nat)
  {
    forall p | p in ps :: p.lo <= p.hi <= 2 * n
  }

  /** Each patch lies strictly above the next one. */
  predicate BottomUp(ps: seq<Patch>)
  {
    forall i, j | 0 <= i < j < |ps| :: ps[j].hi < ps[i].lo
  }

  // ---- the simultaneous splice -------------------------------------------------------------------

  ghost predicate Touched(ps: set<Patch>, slot: nat)
  {
    exists p :: p in ps && p.Covers(slot)
  }

  /** What slot `slot` contributes: the new lines where a patch begins, nothing in the
      rest of its interval, and the original line, if any, elsewhere. */
  ghost function Emit(original: seq<string>, ps: set<Patch>, slot: nat): seq<string>
  {
    if Touched(ps, slot) then
      var p :| p in ps && p.Covers(slot);
      if slot == p.lo then p.lines else []
    else if slot <= 2 * |original| then original[Half(slot)..Half(slot + 1)]
    else []
  }

  /** The slots `from .. to`, each read against the original. */
  ghost function Between(original: seq<string>, ps: set<Patch>, from: nat, to: nat): seq<string>
    decreases to
  {
    if to <= from then [] else Between(original, ps, from, to - 1) + Emit(original, ps, to - 1)
  }

  /** All slots at once.  Only the set of patches counts. */
  ghost function Splice(original: seq<string>, ps: set<Patch>): seq<string>
  {
    Between(original, ps, 0, 2 * |original| + 1)
  }

  ghost predicate Disjoint(ps: set<Patch>)
  {
    forall a, b, slot | a in ps && b in ps && a.Covers(slot) && b.Covers(slot) :: a == b
  }

  lemma {:induction false} EmitCovered(original: seq<string>, ps: set<Patch>, p: Patch, slot: nat)
    requires Disjoint(ps) && p in ps && p.Covers(slot)
    ensures Emit(original, ps, slot) == if slot == p.lo then p.lines else []
  {
    assert Touched(ps, slot);
  }

  lemma {:induction false} BetweenAdds(original: seq<string>, ps: set<Patch>, a: nat, b: nat, c: nat)
    requires a <= b <= c
    ensures Between(original, ps, a, c) == Between(original, ps, a, b) + Between(original, ps, b, c)
    decreases c
  {
    if b < c {
      BetweenAdds(original, ps, a, b, c - 1);
    }
  }

  ghost predicate Untouched(ps: set<Patch>, a: nat, b: nat)
  {
    forall slot | a <= slot < b :: !Touched(ps, slot)
  }

  lemma {:induction false} Slices(s: seq<string>, l: nat, m: nat, r: nat)
    requires l <= m <= r <= |s|
    ensures s[l..m] + s[m..r] == s[l..r] && s[..m] + s[m..r] == s[..r]
  {
  }

  // ---- crossed lines -----------------------------------------------------------------------------------

  /** `new_` put in after the first line. */
  function Tuck(lines: seq<string>, new_: seq<string>): seq<string>
  {
    Assign(lines, 1, 1, new_)
  }

  /** Slot `slot` is a line of `crossed`: its patch is made before the insertion that
      anchors on it. */
  predicate IsCrossed(crossed: set<nat>, slot: nat)
  {
    slot == 2 * Half(slot) + 1 && Half(slot) + 1 in crossed
  }

  lemma {:induction false} Neighbours(crossed: set<nat>, slot: nat)
    requires IsCrossed(crossed, slot)
    ensures !IsCrossed(crossed, slot + 1) && (slot > 0 ==> !IsCrossed(crossed, slot - 1))
  {
  }

  /** What patching one after the other lays down from slot `c` on, read against the
      original at once: the slots in order, except that the insertion after a crossed
      line goes in behind the first line that stands there by then. */
  ghost function Laid(original: seq<string>, ps: set<Patch>, crossed: set<nat>, c: nat): seq<string>
    decreases 2 * |original| + 1 - c
  {
    if c > 2 * |original| then []
    else if IsCrossed(crossed, c) then
      Tuck(Emit(original, ps, c) + Laid(original, ps, crossed, c + 2), Emit(original, ps, c + 1))
    else Emit(original, ps, c) + Laid(original, ps, crossed, c + 1)
  }

  /** A crossed line and the place after it each have a patch of their own. */
  ghost predicate Anchored(ps: set<Patch>, crossed: set<nat>)
  {
    forall slot: nat | IsCrossed(crossed, slot) :: Alone(ps, slot) && Alone(ps, slot + 1)
  }

  ghost predicate Alone(ps: set<Patch>, slot: nat)
  {
    exists p :: p in ps && p.lo == p.hi == slot
  }

  lemma {:induction false} LaidUntouched(original: seq<string>, ps: set<Patch>, crossed: set<nat>, a: nat, b: nat)
    requires a <= b <= 2 * |original| + 1 && Untouched(ps, a, b) && Anchored(ps, crossed)
    ensures Laid(original, ps, crossed, a) == original[Half(a)..Half(b)] + Laid(original, ps, crossed, b)
    decreases b - a
  {
    if a < b {
      LaidFirst(original, ps, crossed, a);
      LaidUntouched(original, ps, crossed, a + 1, b);
      SlicesThen(original, Half(a), Half(a + 1), Half(b), Laid(original, ps, crossed, b));
    } else {
      SlicesThen(original, Half(a), Half(a), Half(a), Laid(original, ps, crossed, b));
    }
  }

  lemma {:induction false} LaidFirst(original: seq<string>, ps: set<Patch>, crossed: set<nat>, a: nat)
    requires a <= 2 * |original| && !Touched(ps, a) && Anchored(ps, crossed)
    ensures Laid(original, ps, crossed, a) == original[Half(a)..Half(a + 1)] + Laid(original, ps, crossed, a + 1)
  {
    assert Alone(ps, a) ==> Touched(ps, a);
  }

  lemma {:induction false} SlicesThen(s: seq<string>, l: nat, m: nat, r: nat, t: seq<string>)
    requires l <= m <= r <= |s|
    ensures s[l..m] + (s[m..r] + t) == s[l..r] + t
  {
    Slices(s, l, m, r);
    assert s[l..m] + (s[m..r] + t) == (s[l..m] + s[m..r]) + t;
  }

  lemma {:induction false} LaidRest(original: seq<string>, ps: set<Patch>, crossed: set<nat>, p: Patch, from: nat)
    requires Disjoint(ps) && Anchored(ps, crossed) && p in ps && p.lo < from <= p.hi + 1 <= 2 * |original| + 1
    ensures Laid(original, ps, crossed, from) == Laid(original, ps, crossed, p.hi + 1)
    decreases p.hi + 1 - from
  {
    if from <= p.hi {
      EmitCovered(original, ps, p, from);
      assert !IsCrossed(crossed, from);
      LaidRest(original, ps, crossed, p, from + 1);
      assert [] + Laid(original, ps, crossed, from + 1) == Laid(original, ps, crossed, from + 1);
    }
  }

  lemma {:induction false} LaidAtPatch(original: seq<string>, ps: set<Patch>, crossed: set<nat>, p: Patch)
    requires Disjoint(ps) && Anchored(ps, crossed) && p in ps && p.lo <= p.hi <= 2 * |original|
    requires !IsCrossed(crossed, p.lo)
    ensures Laid(original, ps, crossed, p.lo) == p.lines + Laid(original, ps, crossed, p.hi + 1)
  {
    EmitCovered(original, ps, p, p.lo);
    LaidRest(original, ps, crossed, p, p.lo + 1);
  }

  // ---- one after the other -------------------------------------------------------------------------------

  /** `todo` are exactly the patches of `all` below slot `c`. */
  ghost predicate Remaining(all: set<Patch>, todo: seq<Patch>, c: nat)
  {
    && (forall p | p in all :: p in todo || c <= p.lo)
    && (forall p | p in todo :: p in all && p.lo <= p.hi < c)
  }

  /** The patch at a crossed line, and the patch after that line. */
  predicate Pair(crossed: set<nat>, p: Patch, q: Patch)
  {
    p.lo == p.hi && q.lo == q.hi == p.lo + 1 && IsCrossed(crossed, p.lo)
  }

  /** `p` may be made before `q`: it lies above it, except that crossed pairs are made in
      the wrong order. */
  predicate Before(crossed: set<nat>, p: Patch, q: Patch)
  {
    Pair(crossed, p, q) || (q.hi < p.lo && !Pair(crossed, q, p))
  }

  predicate Arranged(crossed: set<nat>, ps: seq<Patch>)
  {
    forall i, j | 0 <= i < j < |ps| :: Before(crossed, ps[i], ps[j])
  }

  lemma {:induction false} PatchStep(original: seq<string>, p: Patch, c: nat, tail: seq<string>)
    requires p.lo <= p.hi < c <= 2 * |original| + 1
    ensures ApplyPatch(original[..Half(c)] + tail, p) ==
            original[..Half(p.lo)] + (p.lines + (original[Half(p.hi + 1)..Half(c)] + tail))
  {
    var u, from, to, m := original[..Half(c)] + tail, Half(p.lo), Half(p.hi + 1), Half(c);
    assert from <= to <= m <= |original|;
    assert u[..from] == original[..from] && u[to..] == original[to..m] + tail;
  }

  lemma {:induction false} FirstOut(crossed: set<nat>, todo: seq<Patch>)
    requires todo != [] && Arranged(crossed, todo)
    ensures Arranged(crossed, todo[1..])
    ensures forall p :: p in todo <==> p == todo[0] || p in todo[1..]
    ensures forall p | p in todo[1..] :: Before(crossed, todo[0], p)
  {
    var rest := todo[1..];
    assert todo == [todo[0]] + rest;
    forall p | p in rest ensures Before(crossed, todo[0], p) {
      var i :| 0 <= i < |rest| && rest[i] == p;
      assert todo[i + 1] == p;
    }
  }

  /** Between a patch that is not part of a crossed pair and those already made, the
      original is untouched. */
  lemma {:induction false} PlainFirst(all: set<Patch>, crossed: set<nat>, todo: seq<Patch>, c: nat)
    requires Disjoint(all) && Anchored(all, crossed) && todo != [] && Arranged(crossed, todo) && Remaining(all, todo, c)
    requires !IsCrossed(crossed, todo[0].lo)
    ensures Untouched(all, todo[0].hi + 1, c) && Remaining(all, todo[1..], todo[0].lo)
    ensures todo[0].lo == 0 || !IsCrossed(crossed, todo[0].lo - 1)
  {
    var p := todo[0];
    FirstOut(crossed, todo);
    assert forall q | q in todo[1..] :: q in todo && q.hi < p.lo;
    if p.lo > 0 && Alone(all, p.lo - 1) && Alone(all, p.lo) {
      var r :| r in all && r.lo == r.hi == p.lo - 1;
      var i :| i in all && i.lo == i.hi == p.lo;
      assert p in todo && i.Covers(p.lo) && p.Covers(p.lo);
      PlaceBeforeLine(crossed, p, r);
    }
  }

  lemma {:induction false} PlaceBeforeLine(crossed: set<nat>, place: Patch, line: Patch)
    requires Before(crossed, place, line) && line.lo == line.hi && place.lo == place.hi == line.lo + 1
    ensures !IsCrossed(crossed, line.lo)
  {
  }

  /** A crossed line's patch is followed by the patch after that line. */
  lemma {:induction false} PairFirst(all: set<Patch>, crossed: set<nat>, todo: seq<Patch>, c: nat)
    requires Disjoint(all) && Anchored(all, crossed) && todo != [] && Arranged(crossed, todo) && Remaining(all, todo, c)
    requires IsCrossed(crossed, todo[0].lo) && (c == 0 || !IsCrossed(crossed, c - 1))
    ensures |todo| > 1 && Pair(crossed, todo[0], todo[1])
    ensures Untouched(all, todo[0].lo + 2, c) && Arranged(crossed, todo[2..]) && Remaining(all, todo[2..], todo[0].lo)
    ensures todo[0].lo == 0 || !IsCrossed(crossed, todo[0].lo - 1)
  {
    var p := todo[0];
    Neighbours(crossed, p.lo);
    var i := PartnerOf(all, crossed, todo, c);
    FirstOut(crossed, todo);
    SecondIs(crossed, todo, i);
    FirstOut(crossed, todo[1..]);
    assert todo[1..][1..] == todo[2..];
    forall o | o in todo[2..] ensures o in all && o.lo <= o.hi < p.lo {
      assert o in todo && Before(crossed, p, o) && Before(crossed, i, o);
    }
  }

  lemma {:induction false} PartnerOf(all: set<Patch>, crossed: set<nat>, todo: seq<Patch>, c: nat) returns (i: Patch)
    requires Disjoint(all) && Anchored(all, crossed) && todo != [] && Remaining(all, todo, c)
    requires IsCrossed(crossed, todo[0].lo) && (c == 0 || !IsCrossed(crossed, c - 1))
    ensures i in todo && i in todo[1..] && Pair(crossed, todo[0], i)
  {
    var p := todo[0];
    assert p in todo && Alone(all, p.lo) && Alone(all, p.lo + 1);
    var r :| r in all && r.lo == r.hi == p.lo;
    i :| i in all && i.lo == i.hi == p.lo + 1;
    assert r.Covers(p.lo) && p.Covers(p.lo);
    assert i in todo && todo == [p] + todo[1..];
  }

  lemma {:induction false} SecondIs(crossed: set<nat>, todo: seq<Patch>, i: Patch)
    requires Arranged(crossed, todo) && |todo| > 1 && i in todo[1..] && Pair(crossed, todo[0], i)
    requires forall p | p in todo :: p.lo <= p.hi
    ensures todo[1] == i
  {
    var rest := todo[1..];
    var k :| 0 <= k < |rest| && rest[k] == i;
    assert todo[1] in todo && todo[k + 1] == i && Before(crossed, todo[0], todo[1]);
    assert k > 0 ==> Before(crossed, todo[1], todo[k + 1]);
    NothingBetween(crossed, todo[0], todo[1], i);
  }

  lemma {:induction false} NothingBetween(crossed: set<nat>, p: Patch, o: Patch, i: Patch)
    requires Pair(crossed, p, i) && o.lo <= o.hi && Before(crossed, p, o)
    ensures !Before(crossed, o, i)
  {
    Neighbours(crossed, p.lo);
  }

  /** An insertion whose line was already patched goes in right after the first line that
      stands there now, whatever is below. */
  lemma {:induction false} PairStep(original: seq<string>, crossed: set<nat>, p: Patch, q: Patch, c: nat,
                                    tail: seq<string>)
    requires Pair(crossed, p, q) && q.hi < c <= 2 * |original| + 1
    ensures ApplyPatch(ApplyPatch(original[..Half(c)] + tail, p), q) ==
            original[..Half(p.lo)] + Tuck(p.lines + (original[Half(q.hi + 1)..Half(c)] + tail), q.lines)
  {
    PairHalves(crossed, p, q);
    var top, below := original[..Half(p.lo)], original[Half(q.hi + 1)..Half(c)] + tail;
    assert ApplyPatch(original[..Half(c)] + tail, p) == top + (p.lines + below) by {
      PatchStep(original, p, c, tail);
    }
    TuckAt(top, p.lines + below, q.lines);
  }

  lemma {:induction false} PairHalves(crossed: set<nat>, p: Patch, q: Patch)
    requires Pair(crossed, p, q)
    ensures Half(p.hi + 1) == Half(q.hi + 1) == Half(q.lo) == Half(p.lo) + 1
  {
  }

  lemma {:induction false} TuckAt(top: seq<string>, lines: seq<string>, new_: seq<string>)
    ensures Assign(top + lines, |top| + 1, |top| + 1, new_) == top + Tuck(lines, new_)
  {
    if lines != [] {
      assert (top + lines)[..|top| + 1] == top + lines[..1] && (top + lines)[|top| + 1..] == lines[1..];
    } else {
      assert top + lines == top;
    }
  }

  lemma {:induction false} ApplyFirstTwo(lines: seq<string>, ps: seq<Patch>)
    requires |ps| >= 2
    ensures ApplyPatches(lines, ps) == ApplyPatches(ApplyPatch(ApplyPatch(lines, ps[0]), ps[1]), ps[2..])
  {
    var rest := ps[1..];
    assert rest[0] == ps[1] && rest[1..] == ps[2..];
  }

  lemma {:induction false} LaidAtPair(original: seq<string>, all: set<Patch>, crossed: set<nat>, p: Patch, q: Patch)
    requires Disjoint(all) && p in all && q in all && Pair(crossed, p, q) && q.hi <= 2 * |original|
    ensures Laid(original, all, crossed, p.lo) == Tuck(p.lines + Laid(original, all, crossed, q.hi + 1), q.lines)
  {
    EmitCovered(original, all, p, p.lo);
    EmitCovered(original, all, q, q.lo);
  }

  /** Making the remaining patches one after the other completes the layout. */
  lemma {:induction false} PatchesLay(original: seq<string>, all: set<Patch>, crossed: set<nat>, todo: seq<Patch>,
                                      c: nat)
    requires Disjoint(all) && Anchored(all, crossed) && Arranged(crossed, todo) && Remaining(all, todo, c)
    requires c <= 2 * |original| + 1 && (c == 0 || !IsCrossed(crossed, c - 1))
    ensures ApplyPatches(original[..Half(c)] + Laid(original, all, crossed, c), todo) == Laid(original, all, crossed, 0)
    decreases |todo|
  {
    if todo == [] {
      LaidUntouched(original, all, crossed, 0, c);
    } else if IsCrossed(crossed, todo[0].lo) {
      PairFirst(all, crossed, todo, c);
      assert todo[0] in todo && todo[1] in todo;
      PairLays(original, all, crossed, todo[0], todo[1], c);
      ApplyFirstTwo(original[..Half(c)] + Laid(original, all, crossed, c), todo);
      PatchesLay(original, all, crossed, todo[2..], todo[0].lo);
    } else {
      PlainFirst(all, crossed, todo, c);
      FirstOut(crossed, todo);
      assert todo[0] in todo;
      PatchLays(original, all, crossed, todo[0], c);
      PatchesLay(original, all, crossed, todo[1..], todo[0].lo);
    }
  }

  lemma {:induction false} PatchLays(original: seq<string>, all: set<Patch>, crossed: set<nat>, p: Patch, c: nat)
    requires Disjoint(all) && Anchored(all, crossed) && p in all && p.lo <= p.hi < c <= 2 * |original| + 1
    requires !IsCrossed(crossed, p.lo) && Untouched(all, p.hi + 1, c)
    ensures ApplyPatch(original[..Half(c)] + Laid(original, all, crossed, c), p) ==
            original[..Half(p.lo)] + Laid(original, all, crossed, p.lo)
  {
    LaidUntouched(original, all, crossed, p.hi + 1, c);
    LaidAtPatch(original, all, crossed, p);
    PatchStep(original, p, c, Laid(original, all, crossed, c));
  }

  lemma {:induction false} PairLays(original: seq<string>, all: set<Patch>, crossed: set<nat>, p: Patch, q: Patch,
                                    c: nat)
    requires Disjoint(all) && Anchored(all, crossed) && p in all && q in all && Pair(crossed, p, q)
    requires q.hi < c <= 2 * |original| + 1 && Untouched(all, q.hi + 1, c)
    ensures ApplyPatch(ApplyPatch(original[..Half(c)] + Laid(original, all, crossed, c), p), q) ==
            original[..Half(p.lo)] + Laid(original, all, crossed, p.lo)
  {
    LaidUntouched(original, all, crossed, q.hi + 1, c);
    LaidAtPair(original, all, crossed, p, q);
    PairStep(original, crossed, p, q, c, Laid(original, all, crossed, c));
  }

  function SetOf(ps: seq<Patch>): set<Patch>
  {
    set p | p in ps
  }

  /** Patching in place gives exactly the layout. */
  lemma {:induction false} InPlaceIsLaid(original: seq<string>, ps: seq<Patch>, crossed: set<nat>)
    requires Disjoint(SetOf(ps)) && Anchored(SetOf(ps), crossed) && Arranged(crossed, ps) && Within(ps, |original|)
    ensures ApplyPatches(original, ps) == Laid(original, SetOf(ps), crossed, 0)
  {
    var end, all := 2 * |original| + 1, SetOf(ps);
    assert !IsCrossed(crossed, end - 1);
    assert original[..Half(end)] + Laid(original, all, crossed, end) == original;
    PatchesLay(original, all, crossed, ps, end);
  }

  // ---- when the layout is the splice -----------------------------------------------------------------------

  /** The lines that `new_` lands in front of although it belongs after them, or the
      line that it lands behind although it belongs in front of it. */
  function Displaced(region: seq<string>, below: seq<string>): seq<string>
  {
    if region != [] then region[1..] else below[..Min(1, |below|)]
  }

  /** A displacement is undone neither by itself nor by one further down. */
  lemma {:induction false} TuckWhen(region: seq<string>, new_: seq<string>, laid: seq<string>, below: seq<string>)
    requires |laid| == |below| && new_ != []
    ensures var d := Displaced(region, below);
      Tuck(region + laid, new_) == region + (new_ + below) <==> laid == below && new_ + d == d + new_
    ensures |Tuck(region + laid, new_)| == |region + (new_ + below)|
  {
    if region != [] {
      TuckInside(region, new_, laid, below);
    } else {
      TuckBelow(new_, laid, below);
    }
  }

  lemma {:induction false} TuckInside(region: seq<string>, new_: seq<string>, laid: seq<string>, below: seq<string>)
    requires region != [] && |laid| == |below|
    ensures Tuck(region + laid, new_) == region + (new_ + below) <==>
            laid == below && new_ + region[1..] == region[1..] + new_
  {
    var head, d := region[..1], region[1..];
    assert (region + laid)[..1] == head && (region + laid)[1..] == d + laid;
    assert Tuck(region + laid, new_) == head + ((new_ + d) + laid);
    assert region + (new_ + below) == head + ((d + new_) + below);
    CancelBoth(head, new_ + d, laid, d + new_, below);
  }

  lemma {:induction false} TuckBelow(new_: seq<string>, laid: seq<string>, below: seq<string>)
    requires |laid| == |below| && new_ != []
    ensures var d := below[..Min(1, |below|)];
      Tuck([] + laid, new_) == [] + (new_ + below) <==> laid == below && new_ + d == d + new_
  {
    var n := Min(1, |below|);
    var d, d', rest, rest' := below[..n], laid[..n], below[n..], laid[n..];
    assert laid == d' + rest' && below == d + rest;
    assert [] + laid == laid && [] + (new_ + below) == new_ + below;
    assert Tuck(laid, new_) == (d' + new_) + rest' && new_ + below == (new_ + d) + rest;
    CancelPair(d' + new_, rest', new_ + d, rest);
    CancelPair(d', rest', d, rest);
    if d' + new_ == new_ + d {
      AllTheSame(d', d, new_);
    }
  }

  lemma {:induction false} CancelPair(x: seq<string>, u: seq<string>, y: seq<string>, v: seq<string>)
    requires |x| == |y| && |u| == |v|
    ensures x + u == y + v <==> x == y && u == v
  {
    CancelBoth([], x, u, y, v);
    assert [] + (x + u) == x + u && [] + (y + v) == y + v;
  }

  /** One line moved across others comes out first only if it is what went in last. */
  lemma {:induction false} AllTheSame(d': seq<string>, d: seq<string>, new_: seq<string>)
    requires |d'| == |d| <= 1 && d' + new_ == new_ + d
    ensures d' == d
  {
    if d != [] {
      assert d' == [d'[0]] && d == [d[0]];
      Shifted(d'[0], d[0], new_, |new_|);
    }
  }

  lemma {:induction false} Shifted(x: string, y: string, new_: seq<string>, k: nat)
    requires [x] + new_ == new_ + [y] && k <= |new_|
    ensures ([x] + new_)[k] == x && (k == |new_| ==> x == y)
  {
    if k > 0 {
      Shifted(x, y, new_, k - 1);
      assert ([x] + new_)[k] == new_[k - 1] == (new_ + [y])[k - 1];
    }
    assert (new_ + [y])[|new_|] == y;
  }

  lemma {:induction false} CancelBoth(a: seq<string>, x: seq<string>, u: seq<string>, y: seq<string>, v: seq<string>)
    requires |x| == |y| && |u| == |v|
    ensures a + (x + u) == a + (y + v) <==> x == y && u == v
  {
    if a + (x + u) == a + (y + v) {
      assert x == (a + (x + u))[|a|..|a| + |x|] && y == (a + (y + v))[|a|..|a| + |y|];
      assert u == (a + (x + u))[|a| + |x|..] && v == (a + (y + v))[|a| + |y|..];
    }
  }

  /** The insertion after a crossed line commutes with what it is displaced across. */
  ghost predicate Commutes(original: seq<string>, ps: set<Patch>, slot: nat)
  {
    var new_ := Emit(original, ps, slot + 1);
    var d := Displaced(Emit(original, ps, slot), Between(original, ps, slot + 2, 2 * |original| + 1));
    new_ + d == d + new_
  }

  /** The same read off the two patches. */
  ghost predicate PairCommutes(original: seq<string>, ps: set<Patch>, p: Patch, q: Patch)
  {
    var d := Displaced(p.lines, Between(original, ps, q.lo + 1, 2 * |original| + 1));
    q.lines + d == d + q.lines
  }

  lemma {:induction false} CommutesMeans(original: seq<string>, ps: set<Patch>, p: Patch, q: Patch)
    requires Disjoint(ps) && p in ps && q in ps && p.lo == p.hi && q.lo == q.hi == p.lo + 1
    ensures Commutes(original, ps, p.lo) <==> PairCommutes(original, ps, p, q)
  {
    EmitCovered(original, ps, p, p.lo);
    EmitCovered(original, ps, q, q.lo);
  }

  ghost predicate AllCommute(original: seq<string>, ps: set<Patch>, crossed: set<nat>, from: nat)
  {
    forall slot: nat | from <= slot <= 2 * |original| && IsCrossed(crossed, slot) :: Commutes(original, ps, slot)
  }

  /** Every crossed line is a line of the original and has something inserted after it. */
  ghost predicate Inserting(original: seq<string>, ps: set<Patch>, crossed: set<nat>)
  {
    forall slot: nat | IsCrossed(crossed, slot) :: slot < 2 * |original| && Emit(original, ps, slot + 1) != []
  }

  lemma {:induction false} BetweenFirst(original: seq<string>, ps: set<Patch>, a: nat, b: nat)
    requires a < b
    ensures Between(original, ps, a, b) == Emit(original, ps, a) + Between(original, ps, a + 1, b)
  {
    BetweenAdds(original, ps, a, a + 1, b);
    assert Between(original, ps, a, a) == [] && [] + Emit(original, ps, a) == Emit(original, ps, a);
  }

  lemma {:induction false} LaidIsSpliceIff(original: seq<string>, ps: set<Patch>, crossed: set<nat>, c: nat)
    requires Inserting(original, ps, crossed)
    ensures SpliceIffCommute(original, ps, crossed, c)
    decreases 2 * |original| + 1 - c
  {
    if c <= 2 * |original| {
      if IsCrossed(crossed, c) {
        LaidIsSpliceIff(original, ps, crossed, c + 2);
        PairIff(original, ps, crossed, c);
      } else {
        LaidIsSpliceIff(original, ps, crossed, c + 1);
        PlainIff(original, ps, crossed, c);
      }
    }
  }

  /** The layout from `c` on is as long as the splice, and is the splice if and only if all
      insertions from there on commute. */
  ghost predicate SpliceIffCommute(original: seq<string>, ps: set<Patch>, crossed: set<nat>, c: nat)
  {
    var laid, splice := Laid(original, ps, crossed, c), Between(original, ps, c, 2 * |original| + 1);
    |laid| == |splice| && (laid == splice <==> AllCommute(original, ps, crossed, c))
  }

  lemma {:induction false} PairIff(original: seq<string>, ps: set<Patch>, crossed: set<nat>, c: nat)
    requires c < 2 * |original| && IsCrossed(crossed, c) && Emit(original, ps, c + 1) != []
    requires SpliceIffCommute(original, ps, crossed, c + 2)
    ensures SpliceIffCommute(original, ps, crossed, c)
  {
    TuckAtPair(original, ps, c, Laid(original, ps, crossed, c + 2));
    CommuteAtPair(original, ps, crossed, c);
  }

  lemma {:induction false} TuckAtPair(original: seq<string>, ps: set<Patch>, c: nat, laid: seq<string>)
    requires c < 2 * |original| && Emit(original, ps, c + 1) != []
    requires |laid| == |Between(original, ps, c + 2, 2 * |original| + 1)|
    ensures var lines := Tuck(Emit(original, ps, c) + laid, Emit(original, ps, c + 1));
      var splice := Between(original, ps, c, 2 * |original| + 1);
      && |lines| == |splice|
      && (lines == splice <==> laid == Between(original, ps, c + 2, 2 * |original| + 1) && Commutes(original, ps, c))
  {
    SpliceAtPair(original, ps, c);
    TuckWhen(Emit(original, ps, c), Emit(original, ps, c + 1), laid, Between(original, ps, c + 2, 2 * |original| + 1));
  }

  lemma {:induction false} SpliceAtPair(original: seq<string>, ps: set<Patch>, c: nat)
    requires c < 2 * |original|
    ensures Between(original, ps, c, 2 * |original| + 1) ==
            Emit(original, ps, c) + (Emit(original, ps, c + 1) + Between(original, ps, c + 2, 2 * |original| + 1))
  {
    BetweenFirst(original, ps, c, 2 * |original| + 1);
    BetweenFirst(original, ps, c + 1, 2 * |original| + 1);
  }

  lemma {:induction false} PlainIff(original: seq<string>, ps: set<Patch>, crossed: set<nat>, c: nat)
    requires c <= 2 * |original| && !IsCrossed(crossed, c) && SpliceIffCommute(original, ps, crossed, c + 1)
    ensures SpliceIffCommute(original, ps, crossed, c)
  {
    var end := 2 * |original| + 1;
    BetweenFirst(original, ps, c, end);
    CommuteElsewhere(original, ps, crossed, c);
    CancelFirst(Emit(original, ps, c), Laid(original, ps, crossed, c + 1), Between(original, ps, c + 1, end));
  }

  lemma {:induction false} CancelFirst(x: seq<string>, u: seq<string>, v: seq<string>)
    requires |u| == |v|
    ensures x + u == x + v <==> u == v
  {
    CancelPair(x, u, x, v);
  }

  lemma {:induction false} CommuteAtPair(original: seq<string>, ps: set<Patch>, crossed: set<nat>, c: nat)
    requires IsCrossed(crossed, c) && c <= 2 * |original|
    ensures AllCommute(original, ps, crossed, c) <==>
            Commutes(original, ps, c) && AllCommute(original, ps, crossed, c + 2)
  {
    CommuteFirst(original, ps, crossed, c);
    Neighbours(crossed, c);
    CommuteElsewhere(original, ps, crossed, c + 1);
  }

  lemma {:induction false} CommuteFirst(original: seq<string>, ps: set<Patch>, crossed: set<nat>, c: nat)
    requires IsCrossed(crossed, c) && c <= 2 * |original|
    ensures AllCommute(original, ps, crossed, c) <==>
            Commutes(original, ps, c) && AllCommute(original, ps, crossed, c + 1)
  {
  }

  lemma {:induction false} CommuteElsewhere(original: seq<string>, ps: set<Patch>, crossed: set<nat>, c: nat)
    requires !IsCrossed(crossed, c)
    ensures AllCommute(original, ps, crossed, c) <==> AllCommute(original, ps, crossed, c + 1)
  {
  }

  /** Patching in place from the bottom up gives the simultaneous splice if and only if
      every insertion made after its line was patched commutes with what it is
      displaced across. */
  lemma {:induction false} InPlaceIsSpliceIff(original: seq<string>, ps: seq<Patch>, crossed: set<nat>)
    requires Disjoint(SetOf(ps)) && Anchored(SetOf(ps), crossed) && Arranged(crossed, ps) && Within(ps, |original|)
    requires Inserting(original, SetOf(ps), crossed)
    ensures ApplyPatches(original, ps) == Splice(original, SetOf(ps)) <==> AllCommute(original, SetOf(ps), crossed, 0)
  {
    InPlaceIsLaid(original, ps, crossed);
    LaidIsSpliceIff(original, SetOf(ps), crossed, 0);
  }

  lemma {:induction false} BottomUpIsDisjoint(ps: seq<Patch>)
    requires BottomUp(ps)
    ensures Disjoint(SetOf(ps))
  {
    forall a, b, slot: nat | a in SetOf(ps) && b in SetOf(ps) && a.Covers(slot) && b.Covers(slot) ensures a == b {
      var i, j :| 0 <= i < |ps| && 0 <= j < |ps| && ps[i] == a && ps[j] == b;
    }
  }

  /** In particular, strictly from the bottom up it always is. */
  lemma {:induction false} BottomUpIsSplice(original: seq<string>, ps: seq<Patch>)
    requires BottomUp(ps) && Within(ps, |original|)
    ensures ApplyPatches(original, ps) == Splice(original, SetOf(ps))
  {
    BottomUpIsDisjoint(ps);
    InPlaceIsSpliceIff(original, ps, {});
  }
}
