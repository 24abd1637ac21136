/** The shared per-image cap that keeps all images of a request within budget. */
module ImageBudget {
  import opened Bounds

  const PER_IMAGE: nat := 10 * 1024 * 1024
  const AGGREGATE: nat := 24 * 1024 * 1024

  /** Bytes sent when every image is reduced to at most `cap`. */
  function Capped(sizes: seq<nat>, cap: nat): nat
  {
    if sizes == [] then 0 else Min(sizes[0], cap) + Capped(sizes[1..], cap)
  }

  predicate Sorted(s: seq<nat>)
  {
    forall i, j | 0 <= i < j < |s| :: s[i] <= s[j]
  }

  function Insert(x: nat, s: seq<nat>): (r: seq<nat>)
    ensures |r| == |s| + 1
  {
    if s == [] || x <= s[0] then [x] + s else [s[0]] + Insert(x, s[1..])
  }

  lemma {:induction false} InsertSorts(x: nat, s: seq<nat>)
    requires Sorted(s)
    ensures Sorted(Insert(x, s))
  {
    if s != [] && x > s[0] {
      InsertSorts(x, s[1..]);
      var later := Insert(x, s[1..]);
      forall i | 0 <= i < |later| ensures s[0] <= later[i] {
        assert later[i] in later;
        InsertHas(x, s[1..], later[i]);
      }
    }
  }

  lemma {:induction false} InsertHas(x: nat, s: seq<nat>, y: nat)
    requires y in Insert(x, s)
    ensures y == x || y in s
  {
    if s != [] && x > s[0] && y != s[0] {
      InsertHas(x, s[1..], y);
    }
  }

  lemma {:induction false} InsertCapped(x: nat, s: seq<nat>, cap: nat)
    ensures Capped(Insert(x, s), cap) == Min(x, cap) + Capped(s, cap)
  {
    var r := Insert(x, s);
    if s == [] || x <= s[0] {
      assert r[1..] == s;
    } else {
      InsertCapped(x, s[1..], cap);
      assert r[1..] == Insert(x, s[1..]);
    }
  }

  /** The sizes after the per-image limit, sorted. */
  function Projected(sizes: seq<nat>): (r: seq<nat>)
    ensures |r| == |sizes|
  {
    if sizes == [] then [] else Insert(Min(sizes[0], PER_IMAGE), Projected(sizes[1..]))
  }

  lemma {:induction false} ProjectedIsSorted(sizes: seq<nat>)
    ensures Sorted(Projected(sizes)) && forall y | y in Projected(sizes) :: y <= PER_IMAGE
  {
    if sizes != [] {
      ProjectedIsSorted(sizes[1..]);
      var x, s := Min(sizes[0], PER_IMAGE), Projected(sizes[1..]);
      InsertSorts(x, s);
      forall y | y in Projected(sizes) ensures y <= PER_IMAGE {
        InsertHas(x, s, y);
      }
    }
  }

  lemma {:induction false} ProjectedCapped(sizes: seq<nat>, cap: nat)
    requires cap <= PER_IMAGE
    ensures Capped(Projected(sizes), cap) == Capped(sizes, cap)
  {
    if sizes != [] {
      ProjectedCapped(sizes[1..], cap);
      InsertCapped(Min(sizes[0], PER_IMAGE), Projected(sizes[1..]), cap);
    }
  }

  lemma {:induction false} CappedSplit(s: seq<nat>, k: nat, cap: nat)
    requires k <= |s|
    ensures Capped(s, cap) == Capped(s[..k], cap) + Capped(s[k..], cap)
  {
    if k == 0 {
      assert s[..0] == [] && s[0..] == s;
    } else {
      CappedSplit(s[1..], k - 1, cap);
      assert s[..k][1..] == s[1..][..k - 1] && s[1..][k - 1..] == s[k..];
    }
  }

  lemma {:induction false} CappedLow(s: seq<nat>, cap: nat)
    requires cap <= PER_IMAGE && forall y | y in s :: y <= cap
    ensures Capped(s, cap) == Capped(s, PER_IMAGE)
  {
    if s != [] {
      assert s[0] in s && forall y | y in s[1..] :: y in s;
      CappedLow(s[1..], cap);
    }
  }

  function Times(n: nat, x: nat): nat
  {
    if n == 0 then 0 else x + Times(n - 1, x)
  }

  lemma {:induction false} TimesIsProduct(n: nat, x: nat)
    ensures Times(n, x) == n * x
  {
    if n > 0 {
      TimesIsProduct(n - 1, x);
      assert n * x == x + (n - 1) * x;
    }
  }

  lemma {:induction false} TimesGrows(n: nat, x: nat, y: nat)
    requires x <= y
    ensures Times(n, x) <= Times(n, y)
  {
    if n > 0 {
      TimesGrows(n - 1, x, y);
    }
  }

  lemma {:induction false} CappedHigh(s: seq<nat>, cap: nat)
    requires forall y | y in s :: y >= cap
    ensures Capped(s, cap) == Times(|s|, cap)
  {
    if s != [] {
      assert s[0] in s && forall y | y in s[1..] :: y in s;
      CappedHigh(s[1..], cap);
    }
  }

  lemma {:induction false} CappedGrows(s: seq<nat>, low: nat, high: nat)
    requires low <= high
    ensures Capped(s, low) <= Capped(s, high)
  {
    if s != [] {
      CappedGrows(s[1..], low, high);
    }
  }

  /** The even share of what remains among `n` images. */
  function Share(remaining: nat, n: nat): (q: nat)
    requires n > 0
    ensures Times(n, q) <= remaining < Times(n, q + 1)
  {
    if remaining < n then
      TimesIsProduct(n, 0); TimesIsProduct(n, 1);
      0
    else
      var q := 1 + Share(remaining - n, n);
      TimesNext(n, q - 1); TimesNext(n, q);
      q
  }

  lemma {:induction false} TimesNext(n: nat, x: nat)
    ensures Times(n, x + 1) == Times(n, x) + n
  {
    if n > 0 {
      TimesNext(n - 1, x);
    }
  }

  method Divide(remaining: nat, n: nat) returns (q: nat)
    requires n > 0
    ensures q == Share(remaining, n)
  {
    q := remaining / n;
    DivisionBounds(remaining, n);
    TimesIsProduct(n, q);
    TimesIsProduct(n, q + 1);
    ShareIsUnique(remaining, n, q);
  }

  lemma {:induction false} DivisionBounds(a: nat, n: nat)
    requires n > 0
    ensures n * (a / n) <= a < n * (a / n + 1)
  {
  }

  lemma {:induction false} ShareIsUnique(remaining: nat, n: nat, q: nat)
    requires n > 0 && Times(n, q) <= remaining < Times(n, q + 1)
    ensures q == Share(remaining, n)
  {
    var r := Share(remaining, n);
    if q < r {
      TimesGrows(n, q + 1, r);
    } else if r < q {
      TimesGrows(n, r + 1, q);
    }
  }

  /** The first `k` images are kept whole and none exceeds the even share of the
      rest. */
  ghost predicate Filled(s: seq<nat>, k: nat, remaining: nat)
  {
    && k <= |s| && Capped(s[..k], PER_IMAGE) + remaining == AGGREGATE
    && (k < |s| ==> forall y | y in s[..k] :: y <= Share(remaining, |s| - k))
  }

  /** At the first image above the even share of what is left, that share is the
      largest cap that fits. */
  lemma {:induction false} ShareIsOptimal(s: seq<nat>, k: nat, remaining: nat)
    requires Sorted(s) && k < |s| && forall y | y in s :: y <= PER_IMAGE
    requires Filled(s, k, remaining) && s[k] > Share(remaining, |s| - k)
    ensures var share := Share(remaining, |s| - k);
      share < PER_IMAGE && Capped(s, share) <= AGGREGATE < Capped(s, share + 1)
  {
    var share := Share(remaining, |s| - k);
    assert s[k] in s;
    CappedBetween(s, k, share);
    CappedBetween(s, k, share + 1);
  }

  /** A cap above the first k sizes and at most the next costs the former in full and
      itself for each of the others. */
  lemma {:induction false} CappedBetween(s: seq<nat>, k: nat, cap: nat)
    requires Sorted(s) && k < |s| && cap <= s[k] && cap <= PER_IMAGE && forall y | y in s[..k] :: y <= cap
    ensures Capped(s, cap) == Capped(s[..k], PER_IMAGE) + Times(|s| - k, cap)
  {
    CappedSplit(s, k, cap);
    CappedLow(s[..k], cap);
    var high := s[k..];
    forall y | y in high ensures y >= cap {
      var i :| 0 <= i < |high| && high[i] == y;
      assert s[k + i] == y;
    }
    CappedHigh(high, cap);
  }

  /** Taking an image no larger than the even share leaves a share no smaller. */
  lemma {:induction false} ShareGrows(remaining: nat, n: nat, size: nat)
    requires n > 1 && size <= Share(remaining, n)
    ensures size <= remaining && Share(remaining, n) <= Share(remaining - size, n - 1)
  {
    var q := Share(remaining, n);
    assert Times(n, q) == q + Times(n - 1, q);
    var r := Share(remaining - size, n - 1);
    if r + 1 <= q {
      TimesGrows(n - 1, r + 1, q);
    }
  }

  lemma {:induction false} KeepWhole(s: seq<nat>, k: nat, remaining: nat)
    requires k < |s| && Filled(s, k, remaining) && s[k] <= Share(remaining, |s| - k) && s[k] <= PER_IMAGE
    ensures s[k] <= remaining && Filled(s, k + 1, remaining - s[k])
  {
    CappedNext(s, k, PER_IMAGE);
    assert s[..k + 1] == s[..k] + [s[k]];
    if k + 1 < |s| {
      ShareGrows(remaining, |s| - k, s[k]);
    }
  }

  lemma {:induction false} CappedNext(s: seq<nat>, k: nat, cap: nat)
    requires k < |s|
    ensures Capped(s[..k + 1], cap) == Capped(s[..k], cap) + Min(s[k], cap)
  {
    var front := s[..k + 1];
    CappedSplit(front, k, cap);
    assert front[..k] == s[..k] && front[k..] == [s[k]];
    assert Capped([s[k]], cap) == Min(s[k], cap) + Capped([], cap);
  }

  /** If no image ever exceeds its share, the images fit. */
  lemma {:induction false} FilledFits(s: seq<nat>, remaining: nat)
    requires Filled(s, |s|, remaining)
    ensures Capped(s, PER_IMAGE) <= AGGREGATE
  {
    assert s[..|s|] == s;
  }

  /** What the cap promises. */
  ghost predicate IsBestCap(sizes: seq<nat>, cap: nat)
  {
    && 4 <= cap <= PER_IMAGE
    && (Capped(sizes, PER_IMAGE) <= AGGREGATE ==> cap == PER_IMAGE)
    && (Capped(sizes, PER_IMAGE) > AGGREGATE && Capped(sizes, 4) <= AGGREGATE ==>
          Capped(sizes, cap) <= AGGREGATE < Capped(sizes, cap + 1))
    && (Capped(sizes, 4) > AGGREGATE ==> cap == 4)
  }

  lemma {:induction false} ShareIsBestCap(sizes: seq<nat>, k: nat, remaining: nat)
    requires var s := Projected(sizes);
      k < |s| && Filled(s, k, remaining) && s[k] > Share(remaining, |s| - k)
    requires Capped(sizes, PER_IMAGE) > AGGREGATE
    ensures IsBestCap(sizes, Max(4, Min(PER_IMAGE, Share(remaining, |sizes| - k))))
  {
    var s := Projected(sizes);
    var share := Share(remaining, |s| - k);
    ProjectedIsSorted(sizes);
    ShareIsOptimal(s, k, remaining);
    ProjectedCapped(sizes, share);
    ProjectedCapped(sizes, share + 1);
    if share < 4 {
      CappedGrows(sizes, share + 1, 4);
    } else {
      CappedGrows(sizes, 4, share);
    }
  }

  lemma {:induction false} WholeIsBestCap(sizes: seq<nat>)
    requires Capped(sizes, PER_IMAGE) <= AGGREGATE
    ensures IsBestCap(sizes, PER_IMAGE)
  {
    CappedGrows(sizes, 4, PER_IMAGE);
  }

  lemma {:induction false} KeepNext(sizes: seq<nat>, k: nat, remaining: nat)
    requires var s := Projected(sizes); k < |s| && Filled(s, k, remaining) && s[k] <= Share(remaining, |s| - k)
    ensures var s := Projected(sizes); s[k] <= remaining && Filled(s, k + 1, remaining - s[k])
  {
    ProjectedIsSorted(sizes);
    assert Projected(sizes)[k] in Projected(sizes);
    KeepWhole(Projected(sizes), k, remaining);
  }

  /** The cap.  Nothing is reduced when the images already fit.  Otherwise the cap
      fits the budget and no larger one does, provided even 4 bytes each would fit;
      where they would not, the floor of 4 is returned and the budget is missed. */
  method ImageLimit(sizes: seq<nat>) returns (cap: nat)
    ensures IsBestCap(sizes, cap)
  {
    var s := Projected(sizes);
    ProjectedCapped(sizes, PER_IMAGE);
    if Capped(s, PER_IMAGE) <= AGGREGATE {
      WholeIsBestCap(sizes);
      return PER_IMAGE;
    }
    var remaining := AGGREGATE;
    var k := 0;
    while k < |s|
      invariant 0 <= k <= |s| && remaining >= 0 && Filled(s, k, remaining)
    {
      var share := Divide(remaining, |s| - k);
      if s[k] > share {
        ShareIsBestCap(sizes, k, remaining);
        return Max(4, Min(PER_IMAGE, share));
      }
      KeepNext(sizes, k, remaining);
      remaining := remaining - s[k];
      k := k + 1;
    }
    FilledFits(s, remaining);
    assert false;
  }

  /** The budget is met exactly when 4 bytes per image would meet it. */
  lemma {:induction false} BudgetMetIff(sizes: seq<nat>, cap: nat)
    requires IsBestCap(sizes, cap)
    ensures Capped(sizes, cap) <= AGGREGATE <==> Capped(sizes, 4) <= AGGREGATE
  {
    CappedGrows(sizes, 4, cap);
  }

  /** An even share of at least 4 bytes is enough for the budget to be met. */
  lemma {:induction false} EvenShareSuffices(sizes: seq<nat>)
    requires 4 * |sizes| <= AGGREGATE
    ensures Capped(sizes, 4) <= AGGREGATE
  {
    CappedAtMost(sizes, 4);
    TimesIsProduct(|sizes|, 4);
  }

  lemma {:induction false} CappedAtMost(s: seq<nat>, cap: nat)
    ensures Capped(s, cap) <= Times(|s|, cap)
  {
    if s != [] {
      CappedAtMost(s[1..], cap);
    }
  }
}
