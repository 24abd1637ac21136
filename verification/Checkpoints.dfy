/** The two rolling cache breakpoints.  Blocks are compared by identity here, so
    they are objects. */
module Checkpoints {

  class CacheBlock {
    /** Whether the provider accepts a breakpoint on this kind of block. */
    const cacheable: bool
    var marked: bool

    constructor (cacheable: bool)
      ensures this.cacheable == cacheable && !marked
    {
      this.cacheable := cacheable;
      marked := false;
    }
  }

  datatype Entry = Plain | Listed(blocks: seq<CacheBlock>)

  function BlocksOf(e: Entry): seq<CacheBlock>
  {
    if e.Listed? then e.blocks else []
  }

  /** All blocks of a history, in order. */
  function Flat(history: seq<Entry>): seq<CacheBlock>
  {
    if history == [] then [] else Flat(history[..|history| - 1]) + BlocksOf(history[|history| - 1])
  }

  ghost function Members(blocks: seq<CacheBlock>): set<CacheBlock>
  {
    set b | b in blocks
  }

  ghost function Marked(blocks: seq<CacheBlock>): set<CacheBlock>
    reads Members(blocks)
  {
    set b | b in blocks && b.marked
  }

  lemma {:induction false} FlatNext(history: seq<Entry>, i: nat)
    requires i < |history|
    ensures Flat(history[..i + 1]) == Flat(history[..i]) + BlocksOf(history[i])
  {
    assert history[..i + 1][..i] == history[..i];
  }

  lemma {:induction false} FlatPrefix(history: seq<Entry>, i: nat)
    requires i <= |history|
    ensures Flat(history[..i]) <= Flat(history)
    decreases |history| - i
  {
    if i == |history| {
      assert history[..i] == history;
    } else {
      FlatNext(history, i);
      FlatPrefix(history, i + 1);
    }
  }

  lemma {:induction false} FlatMembers(history: seq<Entry>, i: nat)
    requires i < |history|
    ensures Members(BlocksOf(history[i])) <= Members(Flat(history))
  {
    FlatNext(history, i);
    FlatPrefix(history, i + 1);
    var n := |Flat(history[..i])|;
    forall b | b in BlocksOf(history[i]) ensures b in Flat(history) {
      var k :| 0 <= k < |BlocksOf(history[i])| && BlocksOf(history[i])[k] == b;
      assert Flat(history[..i + 1])[n + k] == b;
    }
  }

  function LastIn(blocks: seq<CacheBlock>): (r: CacheBlock?)
    ensures r != null ==> r in blocks && r.cacheable
  {
    if blocks == [] then null
    else if blocks[|blocks| - 1].cacheable then blocks[|blocks| - 1]
    else LastIn(blocks[..|blocks| - 1])
  }

  lemma {:induction false} LastInAppend(xs: seq<CacheBlock>, ys: seq<CacheBlock>)
    ensures LastIn(xs + ys) == if LastIn(ys) != null then LastIn(ys) else LastIn(xs)
  {
    if ys == [] {
      assert xs + ys == xs;
    } else {
      var n := |ys| - 1;
      assert (xs + ys)[..|xs + ys| - 1] == xs + ys[..n];
      LastInAppend(xs, ys[..n]);
    }
  }

  /** The last block that accepts a marker, and none only if no block does. */
  lemma {:induction false} LastInIsLast(blocks: seq<CacheBlock>)
    ensures LastIn(blocks) == null <==> forall b | b in blocks :: !b.cacheable
    ensures LastIn(blocks) != null ==> exists k ::
      0 <= k < |blocks| && blocks[k] == LastIn(blocks) && forall j | k < j < |blocks| :: !blocks[j].cacheable
  {
    if blocks != [] {
      var front, last := blocks[..|blocks| - 1], blocks[|blocks| - 1];
      LastInIsLast(front);
      assert blocks == front + [last];
      if !last.cacheable && LastIn(front) != null {
        var k :| 0 <= k < |front| && front[k] == LastIn(front) && forall j | k < j < |front| :: !front[j].cacheable;
        assert blocks[k] == LastIn(blocks);
      }
    }
  }

  /** The last block chosen in a log of calls, skipping calls that chose none. */
  function LastChosen(log: seq<CacheBlock?>): CacheBlock?
  {
    if log == [] then null
    else if log[|log| - 1] != null then log[|log| - 1]
    else LastChosen(log[..|log| - 1])
  }

  predicate AllCacheable(log: seq<CacheBlock?>)
  {
    forall c | c in log && c != null :: c.cacheable
  }

  lemma {:induction false} ChosenAppend(log: seq<CacheBlock?>, c: CacheBlock?)
    requires AllCacheable(log) && (c != null ==> c.cacheable)
    ensures LastChosen(log + [c]) == (if c != null then c else LastChosen(log)) && AllCacheable(log + [c])
  {
    assert (log + [c])[..|log|] == log;
  }

  class Tracker {
    var history: seq<Entry>
    var previous: CacheBlock?

    /** What each call of `MarkCacheCheckpoint` chose, oldest first. */
    ghost var log: seq<CacheBlock?>

    ghost predicate Valid()
      reads this
    {
      previous == LastChosen(log) && AllCacheable(log)
    }

    constructor ()
      ensures Valid() && history == [] && log == []
    {
      history, previous, log := [], null, [];
    }

    /** Appending, compaction and restore may replace the history wholesale. */
    method ChangeHistory(entries: seq<Entry>)
      requires Valid()
      modifies this`history
      ensures Valid() && history == entries
    {
      history := entries;
    }

    static method LastInBlocks(blocks: seq<CacheBlock>) returns (r: CacheBlock?)
      ensures r == LastIn(blocks)
    {
      var k := |blocks|;
      assert blocks[..k] == blocks;
      while k > 0
        invariant 0 <= k <= |blocks| && LastIn(blocks[..k]) == LastIn(blocks)
      {
        k := k - 1;
        assert blocks[..k + 1][..k] == blocks[..k];
        if blocks[k].cacheable {
          return blocks[k];
        }
      }
      return null;
    }

    method LastCacheableBlock() returns (r: CacheBlock?)
      ensures r == LastIn(Flat(history))
    {
      var i := |history|;
      assert history[..i] == history;
      while i > 0
        invariant 0 <= i <= |history| && LastIn(Flat(history[..i])) == LastIn(Flat(history))
      {
        i := i - 1;
        FlatNext(history, i);
        LastInAppend(Flat(history[..i]), BlocksOf(history[i]));
        var last := LastInBlocks(BlocksOf(history[i]));
        if last != null {
          return last;
        }
      }
      return null;
    }

    static method ClearBlocks(blocks: seq<CacheBlock>, previous: CacheBlock?) returns (present: bool)
      modifies Members(blocks)
      ensures present <==> previous in blocks
      ensures forall b | b in blocks :: !b.marked
    {
      present := false;
      for k := 0 to |blocks|
        invariant present <==> previous in blocks[..k]
        invariant forall b | b in blocks[..k] :: !b.marked
      {
        if blocks[k] == previous {
          present := true;
        }
        assert blocks[k] in Members(blocks);
        blocks[k].marked := false;
      }
    }

    /** Clear every marker, noting whether the previously marked block is still there. */
    static method ClearMarkers(history: seq<Entry>, previous: CacheBlock?) returns (present: bool)
      modifies Members(Flat(history))
      ensures present <==> previous in Flat(history)
      ensures forall b | b in Flat(history) :: !b.marked
    {
      present := false;
      ghost var done := [];
      for i := 0 to |history|
        invariant done == Flat(history[..i])
        invariant present <==> previous in done
        invariant forall b | b in done :: !b.marked
      {
        var blocks := BlocksOf(history[i]);
        FlatNext(history, i);
        FlatMembers(history, i);
        var here := ClearBlocks(blocks, previous);
        present := present || here;
        assert forall b | b in done :: b in blocks || b !in Members(blocks);
        done := done + blocks;
      }
      assert history[..|history|] == history;
    }

    /** Mark the last cacheable block and the previously marked one, if it is still there. */
    static method PlaceMarkers(history: seq<Entry>, previous: CacheBlock?, latest: CacheBlock?)
      requires latest == LastIn(Flat(history))
      modifies Members(Flat(history))
      ensures forall b | b in Flat(history) :: b.marked <==> b == latest || b == previous
    {
      var present := ClearMarkers(history, previous);
      if present {
        previous.marked := true;
      }
      if latest != null {
        latest.marked := true;
      }
    }

    /** Exactly the current last cacheable block and the one chosen by the previous
        choosing call, if it is still in the history, end up marked. */
    method MarkCacheCheckpoint()
      requires Valid()
      modifies this`previous, this`log, Members(Flat(history))
      ensures Valid() && log == old(log) + [LastIn(Flat(history))]
      ensures forall b | b in Flat(history) ::
        b.marked <==> b == LastIn(Flat(history)) || b == LastChosen(old(log))
      ensures |Marked(Flat(history))| <= 2 && forall b | b in Marked(Flat(history)) :: b.cacheable
    {
      var latest := LastCacheableBlock();
      PlaceMarkers(history, previous, latest);
      ChosenAppend(log, latest);
      if latest != null {
        previous := latest;
      }
      log := log + [latest];
      AtMostTwoMarked(Flat(history), Marked(Flat(history)), old(log));
    }
  }

  /** Never more than two breakpoints, and only on blocks that accept one. */
  lemma {:induction false} AtMostTwoMarked(blocks: seq<CacheBlock>, marked: set<CacheBlock>, log: seq<CacheBlock?>)
    requires forall b | b in marked :: b in blocks && (b == LastIn(blocks) || b == LastChosen(log))
    requires AllCacheable(log)
    ensures |marked| <= 2 && forall b | b in marked :: b.cacheable
  {
    LastChosenIsCacheable(log);
    SubsetSize(marked, {LastIn(blocks), LastChosen(log)});
  }

  lemma {:induction false} LastChosenIsCacheable(log: seq<CacheBlock?>)
    requires AllCacheable(log)
    ensures LastChosen(log) != null ==> LastChosen(log).cacheable
  {
    if log != [] && log[|log| - 1] == null {
      LastChosenIsCacheable(log[..|log| - 1]);
    }
  }

  lemma {:induction false} SubsetSize<T>(a: set<T>, b: set<T>)
    requires a <= b
    ensures |a| <= |b|
  {
    assert b == a + (b - a);
  }
}
