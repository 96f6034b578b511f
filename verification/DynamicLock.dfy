/** Loads and lock counts of a list of block ranges, against which the counters of the lock are judged. */
module LockAccounting {
  import opened Cuts

  const BOUNDARY_CROSSING_PENALTY: nat := 10_000_000

  /** The blocks first .. last that one query touches. */
  datatype Span = Span(first: nat, last: nat)

  ghost predicate ValidLog(log: seq<Span>, blocks: nat) {
    forall q <- log :: q.first <= q.last < blocks
  }

  /** How many queries touch block b. */
  function Hits(log: seq<Span>, b: nat): nat {
    if log == [] then 0
    else Hits(log[..|log| - 1], b) + if log[|log| - 1].first <= b <= log[|log| - 1].last then 1 else 0
  }

  /** How many queries touch both block b-1 and block b. */
  function Crossings(log: seq<Span>, b: nat): nat {
    if log == [] then 0
    else Crossings(log[..|log| - 1], b) + if log[|log| - 1].first < b <= log[|log| - 1].last then 1 else 0
  }

  /** Queries touching each of the blocks below n that belong to part i, summed up. */
  function Load(log: seq<Span>, c: seq<nat>, i: nat, n: nat): nat
    requires c != []
  {
    if n == 0 then 0 else Load(log, c, i, n - 1) + if PartOf(c, n - 1) == i then Hits(log, n - 1) else 0
  }

  function Square(x: int): nat { if x < 0 then (-x) * (-x) else x * x }

  function SquaredLoads(log: seq<Span>, c: seq<nat>, blocks: nat, n: nat): nat
    requires c != []
  {
    if n == 0 then 0
    else SquaredLoads(log, c, blocks, n - 1) + Square(Load(log, c, n - 1, blocks))
  }

  /** Locks taken by a query: those of the parts from its first to its last block. */
  function LocksOf(c: seq<nat>, q: Span): int
    requires c != []
  {
    PartOf(c, q.last) - PartOf(c, q.first) + 1
  }

  function TotalLocks(log: seq<Span>, c: seq<nat>): int
    requires c != []
  {
    if log == [] then 0 else TotalLocks(log[..|log| - 1], c) + LocksOf(c, log[|log| - 1])
  }

  /** What a partition costs a list of queries: the squared loads of its k locks, and the penalty for
      every lock a query takes beyond its first. */
  function MeasuredCost(log: seq<Span>, c: seq<nat>, blocks: nat, k: nat): int
    requires c != []
  {
    SquaredLoads(log, c, blocks, k) + BOUNDARY_CROSSING_PENALTY * (TotalLocks(log, c) - |log|)
  }

  // ----- prices from counters -----

  ghost predicate IsPrefixSum(prefix: seq<nat>, stats: seq<nat>) {
    && |prefix| == |stats| + 1 && prefix[0] == 0
    && forall b {:trigger stats[b]} :: 0 <= b < |stats| ==> prefix[b + 1] == prefix[b] + stats[b]
  }

  /** The price of a part of blocks l .. r-1: its load squared, and the crossings of its left border. */
  function EdgeCost(prefix: seq<nat>, crossings: seq<nat>, l: nat, r: nat): nat
    requires l < |prefix| && r < |prefix| && l < |crossings|
  {
    Square((prefix[r] as int) - prefix[l]) + if l == 0 then 0 else BOUNDARY_CROSSING_PENALTY * crossings[l]
  }

  function EdgePrice(prefix: seq<nat>, crossings: seq<nat>): Price {
    (l: nat, r: nat) =>
      if l < |prefix| && r < |prefix| && l < |crossings| then EdgeCost(prefix, crossings, l, r) as real else 0.0
  }

  /** The test of HasEnoughPartitionGain, over exact reals. */
  predicate Gains(currentCost: real, newCost: real, minGain: real) {
    currentCost > newCost * minGain
  }

  lemma ScaledUp(x: real, g: real)
    requires x >= 0.0 && g >= 1.0
    ensures x * g >= x
  {
    assert x * (g - 1.0) >= 0.0;
  }

  // ----- what PartitionCost measures -----

  /** The crossings of the cuts c[1], ..., c[n-1]. */
  function CutCrossings(log: seq<Span>, c: seq<nat>, n: nat): nat
    requires n <= |c|
  {
    if n <= 1 then 0 else CutCrossings(log, c, n - 1) + Crossings(log, c[n - 1])
  }

  lemma {:induction false} CutCrossingsOneMore(log: seq<Span>, c: seq<nat>, n: nat)
    requires log != [] && n <= |c| && log[|log| - 1].first <= log[|log| - 1].last
    ensures CutCrossings(log, c, n) == CutCrossings(log[..|log| - 1], c, n)
              + CutsUpTo(c, n, log[|log| - 1].last) - CutsUpTo(c, n, log[|log| - 1].first)
  {
    if n > 1 { CutCrossingsOneMore(log, c, n - 1); }
  }

  /** Every cut a query crosses costs it one lock more. */
  lemma {:induction false} CrossingsAreExtraLocks(log: seq<Span>, c: seq<nat>, blocks: nat)
    requires c != [] && ValidLog(log, blocks)
    ensures CutCrossings(log, c, |c| - 1) == TotalLocks(log, c) - |log|
  {
    if log == [] {
      NoCrossings(c, |c| - 1);
    } else {
      assert log[|log| - 1] in log;
      CrossingsAreExtraLocks(log[..|log| - 1], c, blocks);
      CutCrossingsOneMore(log, c, |c| - 1);
    }
  }

  lemma {:induction false} NoCrossings(c: seq<nat>, n: nat)
    requires n <= |c|
    ensures CutCrossings([], c, n) == 0
  {
    if n > 1 { NoCrossings(c, n - 1); }
  }

  ghost predicate HitsOf(log: seq<Span>, stats: seq<nat>) {
    forall b :: 0 <= b < |stats| ==> stats[b] == Hits(log, b)
  }

  ghost predicate CountersOf(log: seq<Span>, stats: seq<nat>, crossings: seq<nat>) {
    && |stats| == |crossings| && HitsOf(log, stats)
    && (forall b :: 0 <= b < |stats| ==> crossings[b] == Crossings(log, b))
  }

  /** The load of a part is the difference of two prefix sums. */
  lemma {:induction false} LoadIsDifference(
      log: seq<Span>, stats: seq<nat>, prefix: seq<nat>, c: seq<nat>, k: nat, i: nat, n: nat)
    requires HitsOf(log, stats) && IsPrefixSum(prefix, stats)
    requires ValidCuts(c, k, |stats|) && i < k && n <= |stats|
    ensures c[i] < c[i + 1] <= |stats|
    ensures Load(log, c, i, n) == if n <= c[i] then 0 else if n <= c[i + 1] then prefix[n] as int - prefix[c[i]]
                                  else prefix[c[i + 1]] as int - prefix[c[i]]
  {
    if i + 1 < k { assert c[i + 1] < c[k]; }
    if n > 0 {
      LoadIsDifference(log, stats, prefix, c, k, i, n - 1);
      PartOfBlock(c, k, |stats|, n - 1, i);
      assert prefix[n - 1 + 1] == prefix[n - 1] + stats[n - 1];
    }
  }

  lemma {:induction false} CostOfParts(
      log: seq<Span>, stats: seq<nat>, crossings: seq<nat>, prefix: seq<nat>, c: seq<nat>, k: nat, n: nat)
    requires CountersOf(log, stats, crossings) && IsPrefixSum(prefix, stats)
    requires ValidCuts(c, k, |stats|) && n <= k
    ensures PriceOf(c[..n + 1], EdgePrice(prefix, crossings))
            == (SquaredLoads(log, c, |stats|, n) + BOUNDARY_CROSSING_PENALTY * CutCrossings(log, c, n)) as real
  {
    if n > 0 {
      CostOfParts(log, stats, crossings, prefix, c, k, n - 1);
      LoadIsDifference(log, stats, prefix, c, k, n - 1, |stats|);
      assert c[..n + 1][..n] == c[..n];
      if n > 1 { assert c[0] < c[n - 1] < c[n]; }
    }
  }

  /** The cost of a partition, computed from the counters, is what it costs the queries counted. */
  lemma CostAccounting(
      log: seq<Span>, stats: seq<nat>, crossings: seq<nat>, prefix: seq<nat>, c: seq<nat>, k: nat)
    requires CountersOf(log, stats, crossings) && IsPrefixSum(prefix, stats)
    requires ValidCuts(c, k, |stats|) && k > 0 && ValidLog(log, |stats|)
    ensures TotalLocks(log, c) >= |log|
    ensures PriceOf(c, EdgePrice(prefix, crossings)) == MeasuredCost(log, c, |stats|, k) as real
  {
    CostOfParts(log, stats, crossings, prefix, c, k, k);
    assert c[..k + 1] == c;
    CrossingsAreExtraLocks(log, c, |stats|);
  }

  /** So a partition that is cheapest by the counters is cheapest for the queries. */
  lemma CheapestForQueries(
      log: seq<Span>, stats: seq<nat>, crossings: seq<nat>, prefix: seq<nat>, c: seq<nat>, k: nat)
    requires CountersOf(log, stats, crossings) && IsPrefixSum(prefix, stats) && k > 0 && ValidLog(log, |stats|)
    requires Cheapest(c, k, |stats|, EdgePrice(prefix, crossings))
    ensures forall d :: ValidCuts(d, k, |stats|) ==> MeasuredCost(log, c, |stats|, k) <= MeasuredCost(log, d, |stats|, k)
  {
    CostAccounting(log, stats, crossings, prefix, c, k);
    forall d | ValidCuts(d, k, |stats|)
      ensures MeasuredCost(log, c, |stats|, k) <= MeasuredCost(log, d, |stats|, k)
    {
      CostAccounting(log, stats, crossings, prefix, d, k);
    }
  }

  /** A query over first .. last needs exactly the locks from the first block's to the last block's. */
  lemma LocksNeeded(c: seq<nat>, k: nat, r: nat, q: Span, i: nat)
    requires ValidCuts(c, k, r) && q.first <= q.last < r
    ensures PartOf(c, q.first) <= i <= PartOf(c, q.last) <==>
            exists b: nat :: q.first <= b <= q.last && PartOf(c, b) == i
  {
    if b: nat :| q.first <= b <= q.last && PartOf(c, b) == i {
      CutsUpToMonotone(c, k, q.first, b);
      CutsUpToMonotone(c, k, b, q.last);
    } else if PartOf(c, q.first) < i <= PartOf(c, q.last) {
      PartOfBlock(c, k, r, q.last, 0);
      PartOfBlock(c, k, r, q.first, PartOf(c, q.first));
      PartOfBlock(c, k, r, q.last, PartOf(c, q.last));
      assert c[PartOf(c, q.first) + 1] <= c[i] <= c[PartOf(c, q.last)];
      PartOfBlock(c, k, r, c[i], i);
    }
  }
}

/** The adaptive range lock: its counters, its block-to-lock map and the choice of a new partition. */
module DynamicLocks {
  import opened Wrappers
  import opened Cuts
  import opened LockAccounting
  import opened Positions

  function Real(d: Option<nat>): Option<real> {
    if d.None? then None else Some(d.value as real)
  }

  class DynamicLock {
    const arraySize: nat
    const blockSize: nat
    const kBlocks: nat
    const kLockCnt: nat
    const minRebuildGain: real
    const blockToLock: array<nat>
    const stats: array<nat>
    const boundaryCrossings: array<nat>
    var lastStats: seq<nat>
    var partitions: seq<nat>
    var partitionEpoch: nat
    /** The queries counted since the counters were last reset. */
    ghost var log: seq<Span>

    ghost predicate Valid()
      reads this, blockToLock, stats, boundaryCrossings
    {
      && 1 <= kLockCnt <= kBlocks && blockSize == BlockSize(arraySize, kBlocks) && minRebuildGain >= 1.0
      && blockToLock.Length == stats.Length == boundaryCrossings.Length == kBlocks
      && blockToLock != stats && blockToLock != boundaryCrossings && stats != boundaryCrossings
      && ValidCuts(partitions, kLockCnt, kBlocks)
      && (forall b :: 0 <= b < kBlocks ==> blockToLock[b] == PartOf(partitions, b))
      && ValidLog(log, kBlocks) && CountersOf(log, stats[..], boundaryCrossings[..])
      && partitionEpoch % 2 == 0
    }

    constructor (array_size: nat, blocks: nat, locks: nat, min_rebuild_gain: real)
      requires 1 <= locks <= blocks
      ensures Valid() && fresh(blockToLock) && fresh(stats) && fresh(boundaryCrossings)
      ensures kBlocks == blocks && kLockCnt == locks && arraySize == array_size && log == []
      ensures forall size: nat :: size > 0 ==> (size >= blockSize <==> array_size <= blocks * size)
      ensures forall j :: 0 <= j < locks ==> partitions[j] == EvenCut(j, locks, blocks)
      ensures minRebuildGain == if min_rebuild_gain < 1.0 then 1.0 else min_rebuild_gain
    {
      arraySize := array_size;
      kBlocks, kLockCnt := blocks, locks;
      blockSize := BlockSize(array_size, blocks);
      minRebuildGain := if min_rebuild_gain < 1.0 then 1.0 else min_rebuild_gain;
      var cuts := EvenCuts(blocks, locks);
      partitions := cuts;
      blockToLock := new nat[blocks];
      stats := new nat[blocks](_ => 0);
      boundaryCrossings := new nat[blocks](_ => 0);
      lastStats := seq(blocks, _ => 0);
      partitionEpoch := 0;
      log := [];
      new;
      RefreshBlockToLock();
      forall size: nat | size > 0 ensures size >= blockSize <==> array_size <= blocks * size {
        BlockSizeIsLeast(array_size, blocks, size);
      }
    }

    function PositionToBlock(pos: nat): (b: nat)
      requires blockSize > 0 && kBlocks > 0
      ensures b < kBlocks
    {
      BlockOf(pos, blockSize, kBlocks)
    }

    /** One pass over the blocks; the lock index only moves forward. */
    method RefreshBlockToLock()
      requires 1 <= kLockCnt <= kBlocks == blockToLock.Length && ValidCuts(partitions, kLockCnt, kBlocks)
      modifies blockToLock
      ensures forall b :: 0 <= b < kBlocks ==> blockToLock[b] == PartOf(partitions, b)
    {
      var lockIndex := 0;
      var block := 0;
      while block < kBlocks
        invariant 0 <= block <= kBlocks && lockIndex < kLockCnt
        invariant block < kBlocks ==> partitions[lockIndex] <= block
        invariant forall b :: 0 <= b < block ==> blockToLock[b] == PartOf(partitions, b)
      {
        while lockIndex + 1 < kLockCnt && block >= partitions[lockIndex + 1]
          invariant lockIndex < kLockCnt && partitions[lockIndex] <= block
        {
          lockIndex := lockIndex + 1;
        }
        PartOfBlock(partitions, kLockCnt, kBlocks, block, lockIndex);
        blockToLock[block] := lockIndex;
        block := block + 1;
      }
    }

    function Clamped(pos: nat): nat
      requires arraySize > 0
    {
      if pos < arraySize - 1 then pos else arraySize - 1
    }

    /** Blocks of a query after WriteQuery has clamped and ordered its ends. */
    function SpanOf(left: nat, right: nat): (q: Span)
      requires arraySize > 0 && blockSize > 0 && kBlocks > 0
      ensures q.first <= q.last < kBlocks
    {
      var (l, r) := (Clamped(left), Clamped(right));
      var (l', r') := if l > r then (r, l) else (l, r);
      BlockMonotone(l', r', blockSize, kBlocks);
      Span(PositionToBlock(l'), PositionToBlock(r'))
    }

    /** The query is about position p of the array. */
    predicate Touches(left: nat, right: nat, p: nat)
      requires arraySize > 0
    {
      p < arraySize && (Clamped(left) <= p <= Clamped(right) || Clamped(right) <= p <= Clamped(left))
    }

    /** The query is about some position of block b. */
    ghost predicate Meets(left: nat, right: nat, b: nat)
      requires arraySize > 0
    {
      exists p: nat :: Touches(left, right, p) && InBlock(b, p, blockSize)
    }

    /** The blocks of a query are those that it has a position in. */
    lemma SpanMeets(left: nat, right: nat, b: nat)
      requires arraySize > 0 && kBlocks > 0 && blockSize == BlockSize(arraySize, kBlocks)
      ensures SpanOf(left, right).first <= b <= SpanOf(left, right).last <==> Meets(left, right, b)
    {
      var (l, r) := (Clamped(left), Clamped(right));
      var (l', r') := if l > r then (r, l) else (l, r);
      BlocksBetween(l', r', blockSize, kBlocks, b);
      forall p: nat | Touches(left, right, p)
        ensures Holds(b, p, blockSize, kBlocks) <==> InBlock(b, p, blockSize)
      {
        HoldsInArray(b, p, arraySize, kBlocks);
      }
      assert forall p: nat :: Touches(left, right, p) <==> l' <= p <= r';
    }

    /** Two ranges that share a position share a block. */
    lemma SharedPosition(left: nat, right: nat, left': nat, right': nat, p: nat)
      requires arraySize > 0 && kBlocks > 0 && blockSize == BlockSize(arraySize, kBlocks)
      requires Touches(left, right, p) && Touches(left', right', p)
      ensures var q, q' := SpanOf(left, right), SpanOf(left', right'); q.first <= q'.last && q'.first <= q.last
    {
      var b := PositionToBlock(p);
      BlockHolds(p, blockSize, kBlocks, b);
      HoldsInArray(b, p, arraySize, kBlocks);
      SpanMeets(left, right, b);
      SpanMeets(left', right', b);
    }

    /** The parts that the positions of a query lie in. */
    ghost function PartsOf(left: nat, right: nat): set<nat>
      requires arraySize > 0 && blockSize > 0 && kBlocks > 0 && partitions != []
      reads this
    {
      set p: nat | p < arraySize && Touches(left, right, p) :: PartOf(partitions, PositionToBlock(p))
    }

    /** The number of locks a query takes is the number of parts its positions lie in. */
    method CountLocksForRange(left: nat, right: nat) returns (n: nat)
      requires Valid()
      ensures arraySize == 0 ==> n == 0
      ensures arraySize > 0 ==> n == |PartsOf(left, right)|
    {
      if arraySize == 0 { return 0; }
      var q := SpanOf(left, right);
      var lockStart, lockEnd := blockToLock[q.first], blockToLock[q.last];
      CutsUpToMonotone(partitions, kLockCnt, q.first, q.last);
      n := lockEnd - lockStart + 1;
      assert PartsOf(left, right) == Interval(lockStart, lockEnd + 1) by {
        forall i: nat ensures i in PartsOf(left, right) <==> lockStart <= i <= lockEnd {
          PartsOfBlocks(left, right, i);
          LocksNeeded(partitions, kLockCnt, kBlocks, q, i);
        }
      }
    }

    lemma PartsOfBlocks(left: nat, right: nat, i: nat)
      requires arraySize > 0 && kBlocks > 0 && blockSize == BlockSize(arraySize, kBlocks) && partitions != []
      ensures i in PartsOf(left, right) <==>
              exists b: nat :: SpanOf(left, right).first <= b <= SpanOf(left, right).last && PartOf(partitions, b) == i
    {
      if i in PartsOf(left, right) {
        var p: nat :| p < arraySize && Touches(left, right, p) && PartOf(partitions, PositionToBlock(p)) == i;
        BlockHolds(p, blockSize, kBlocks, PositionToBlock(p));
        HoldsInArray(PositionToBlock(p), p, arraySize, kBlocks);
        SpanMeets(left, right, PositionToBlock(p));
      }
      if b: nat :| SpanOf(left, right).first <= b <= SpanOf(left, right).last && PartOf(partitions, b) == i {
        SpanMeets(left, right, b);
        var p: nat :| Touches(left, right, p) && InBlock(b, p, blockSize);
        HoldsInArray(b, p, arraySize, kBlocks);
        BlockHolds(p, blockSize, kBlocks, b);
      }
    }

    static ghost function Interval(lo: nat, hi: nat): (s: set<nat>)
      requires lo <= hi
      ensures |s| == hi - lo && forall i: nat :: i in s <==> lo <= i < hi
      decreases hi
    {
      if lo == hi then {} else Interval(lo, hi - 1) + {hi - 1}
    }

    // ----- counters -----

    method AddOne(a: array<nat>, from: nat, to: nat)
      requires a.Length == kBlocks && to < kBlocks
      modifies a
      ensures forall b :: 0 <= b < kBlocks ==> a[b] == old(a[b]) + if from <= b <= to then 1 else 0
    {
      var i := from;
      while i <= to && i < kBlocks
        invariant if from <= to then from <= i <= to + 1 else i == from
        invariant forall b :: 0 <= b < kBlocks ==> a[b] == old(a[b]) + if from <= b < i then 1 else 0
      {
        a[i] := a[i] + 1;
        i := i + 1;
      }
    }

    /** Counts one query. */
    method UpdateStats(left: nat, right: nat)
      requires Valid() && arraySize > 0
      modifies stats, boundaryCrossings, `log
      ensures Valid() && log == old(log) + [SpanOf(left, right)]
      ensures forall b :: 0 <= b < kBlocks ==> stats[b] == old(stats[b]) + if Meets(left, right, b) then 1 else 0
      ensures forall b {:trigger boundaryCrossings[b]} :: 0 <= b < kBlocks ==>
        boundaryCrossings[b] == old(boundaryCrossings[b])
          + if b > 0 && Meets(left, right, b - 1) && Meets(left, right, b) then 1 else 0
    {
      var q := SpanOf(left, right);
      AddOne(stats, q.first, q.last);
      AddOne(boundaryCrossings, q.first + 1, q.last);
      log := log + [q];
      assert log[..|log| - 1] == old(log);
      forall b: nat | b < kBlocks ensures Meets(left, right, b) <==> q.first <= b <= q.last { SpanMeets(left, right, b); }
    }

    /** Forgets everything counted so far. */
    method ResetCollectedStats(currentStats: seq<nat>)
      requires Valid()
      modifies stats, boundaryCrossings, `log, `lastStats
      ensures Valid() && log == [] && lastStats == currentStats
    {
      lastStats := currentStats;
      log := [];
      var i := 0;
      while i < kBlocks
        invariant 0 <= i <= kBlocks && log == [] && lastStats == currentStats
        invariant forall b :: 0 <= b < i ==> stats[b] == 0 && boundaryCrossings[b] == 0
      {
        stats[i] := 0;
        boundaryCrossings[i] := 0;
        i := i + 1;
      }
    }

    // ----- choosing a partition -----

    ghost predicate Snapshot(prefix: seq<nat>, crossings: seq<nat>) {
      && 1 <= kLockCnt <= kBlocks && |prefix| == kBlocks + 1 && |crossings| == kBlocks
      && forall i, j :: 0 <= i < j <= kBlocks ==> prefix[i] <= prefix[j]
    }

    ghost predicate Tables(dp: array2<Option<nat>>, split: array2<nat>) {
      && 1 <= kLockCnt <= kBlocks
      && dp.Length0 == split.Length0 == kBlocks + 1 && dp.Length1 == split.Length1 == kLockCnt + 1
    }

    ghost predicate CellAt(w: Price, dp: array2<Option<nat>>, split: array2<nat>, r: nat, k: nat)
      requires Tables(dp, split) && r <= kBlocks && k <= kLockCnt
      reads dp, split
    {
      Cell(w, Real(dp[r, k]), split[r, k], r, k, Best(w, r, k))
    }

    /** The rows below r are filled, and so are the first k cells of row r; the rest is still empty. */
    ghost predicate Filled(w: Price, dp: array2<Option<nat>>, split: array2<nat>, r: nat, k: nat)
      requires Tables(dp, split)
      reads dp, split
    {
      && (forall r', k' {:trigger CellAt(w, dp, split, r', k')} ::
            0 <= r' <= kBlocks && 0 <= k' <= kLockCnt && (r' < r || (r' == r && k' < k)) ==> CellAt(w, dp, split, r', k'))
      && (forall r', k' {:trigger dp[r', k']} ::
            0 <= r' <= kBlocks && 0 <= k' <= kLockCnt && (r' > r || (r' == r && k' >= k)) ==> dp[r', k'] == None)
    }

    /** The dynamic program: dp[right, locks] is the least price of `locks` parts of the first `right` blocks. */
    method OptimizePartitions(prefix: seq<nat>, crossings: seq<nat>) returns (cuts: seq<nat>)
      requires Snapshot(prefix, crossings)
      ensures Cheapest(cuts, kLockCnt, kBlocks, EdgePrice(prefix, crossings))
      ensures Best(EdgePrice(prefix, crossings), kBlocks, kLockCnt) == Some(PriceOf(cuts, EdgePrice(prefix, crossings)))
    {
      ghost var w := EdgePrice(prefix, crossings);
      var dp := new Option<nat>[kBlocks + 1, kLockCnt + 1]((_, _) => None);
      var split := new nat[kBlocks + 1, kLockCnt + 1]((_, _) => 0);
      dp[0, 0] := Some(0);
      assert forall k :: 0 < k <= kLockCnt ==> Best(w, 0, k) == None;
      assert Filled(w, dp, split, 0, kLockCnt + 1);
      var right := 1;
      while right <= kBlocks
        invariant 1 <= right <= kBlocks + 1
        invariant Filled(w, dp, split, right - 1, kLockCnt + 1)
      {
        var locks := 1;
        assert CellAt(w, dp, split, right, 0);
        while locks <= kLockCnt
          invariant 1 <= locks <= kLockCnt + 1
          invariant Filled(w, dp, split, right, locks)
        {
          FillCell(prefix, crossings, dp, split, right, locks);
          locks := locks + 1;
        }
        right := right + 1;
      }
      BestExists(w, kBlocks, kLockCnt);
      forall r, k {:trigger split[r, k]} | 0 <= r <= kBlocks && 0 <= k <= kLockCnt
        ensures Cell(w, Best(w, r, k), split[r, k], r, k, Best(w, r, k))
      {
        assert CellAt(w, dp, split, r, k);
      }
      cuts := FollowSplits(split, w, kBlocks, kLockCnt);
    }

    /** The innermost loop: all last parts left .. right-1. */
    method FillCell(prefix: seq<nat>, crossings: seq<nat>, dp: array2<Option<nat>>, split: array2<nat>, right: nat, locks: nat)
      requires Snapshot(prefix, crossings) && Tables(dp, split) && 1 <= right <= kBlocks && 1 <= locks <= kLockCnt
      requires Filled(EdgePrice(prefix, crossings), dp, split, right, locks)
      modifies dp, split
      ensures Filled(EdgePrice(prefix, crossings), dp, split, right, locks + 1)
    {
      ghost var w := EdgePrice(prefix, crossings);
      var left := 0;
      while left < right
        invariant 0 <= left <= right
        invariant forall r, k :: 0 <= r <= kBlocks && 0 <= k <= kLockCnt && (r != right || k != locks) ==>
          dp[r, k] == old(dp[r, k]) && split[r, k] == old(split[r, k])
        invariant Cell(w, Real(dp[right, locks]), split[right, locks], right, locks, BestBelow(w, right, locks, left))
      {
        assert old(CellAt(w, dp, split, left, locks - 1));
        if dp[left, locks - 1].Some? {
          var candidate := Candidate(dp[left, locks - 1].value, prefix, crossings, left, right);
          if dp[right, locks].None? || candidate < dp[right, locks].value {
            dp[right, locks] := Some(candidate);
            split[right, locks] := left;
          }
        }
        left := left + 1;
      }
      forall r, k | 0 <= r <= kBlocks && 0 <= k <= kLockCnt && (r < right || (r == right && k < locks + 1))
        ensures CellAt(w, dp, split, r, k)
      {
        if r != right || k != locks { assert old(CellAt(w, dp, split, r, k)); }
      }
    }

    method Candidate(previous: nat, prefix: seq<nat>, crossings: seq<nat>, left: nat, right: nat) returns (candidate: nat)
      requires Snapshot(prefix, crossings) && left < right <= kBlocks
      ensures candidate as real == previous as real + EdgePrice(prefix, crossings)(left, right)
    {
      var weight := prefix[right] - prefix[left];
      var cutPenalty := if left == 0 then 0 else BOUNDARY_CROSSING_PENALTY * crossings[left];
      candidate := previous + weight * weight + cutPenalty;
    }

    method PartitionCost(cuts: seq<nat>, prefix: seq<nat>, crossings: seq<nat>) returns (total: nat)
      requires Snapshot(prefix, crossings) && ValidCuts(cuts, kLockCnt, kBlocks)
      ensures total as real == PriceOf(cuts, EdgePrice(prefix, crossings))
    {
      ghost var w := EdgePrice(prefix, crossings);
      total := 0;
      var lockIndex := 0;
      while lockIndex < kLockCnt
        invariant 0 <= lockIndex <= kLockCnt
        invariant total as real == PriceOf(cuts[..lockIndex + 1], w)
      {
        var left, right := cuts[lockIndex], cuts[lockIndex + 1];
        assert right <= cuts[kLockCnt];
        var weight := prefix[right] - prefix[left];
        var cutPenalty := if left == 0 then 0 else BOUNDARY_CROSSING_PENALTY * crossings[left];
        assert w(left, right) == (weight * weight + cutPenalty) as real;
        assert cuts[..lockIndex + 2][..lockIndex + 1] == cuts[..lockIndex + 1];
        total := total + weight * weight + cutPenalty;
        lockIndex := lockIndex + 1;
      }
      assert cuts[..kLockCnt + 1] == cuts;
    }

    method HasEnoughPartitionGain(current: seq<nat>, proposed: seq<nat>, prefix: seq<nat>, crossings: seq<nat>)
      returns (enough: bool)
      requires Snapshot(prefix, crossings) && minRebuildGain >= 1.0
      requires ValidCuts(current, kLockCnt, kBlocks) && ValidCuts(proposed, kLockCnt, kBlocks)
      ensures var w := EdgePrice(prefix, crossings);
              enough <==> Gains(PriceOf(current, w), PriceOf(proposed, w), minRebuildGain)
      ensures enough ==> PriceOf(proposed, EdgePrice(prefix, crossings)) < PriceOf(current, EdgePrice(prefix, crossings))
    {
      var newCost := PartitionCost(proposed, prefix, crossings);
      var currentCost := PartitionCost(current, prefix, crossings);
      enough := GainTest(proposed == current, newCost, currentCost);
    }

    method GainTest(same: bool, newCost: nat, currentCost: nat) returns (enough: bool)
      requires minRebuildGain >= 1.0 && (same ==> newCost == currentCost)
      ensures enough <==> Gains(currentCost as real, newCost as real, minRebuildGain)
      ensures enough ==> newCost < currentCost
    {
      ScaledUp(newCost as real, minRebuildGain);
      if same { return false; }
      if newCost == 0 { return currentCost != 0; }
      return currentCost as real > newCost as real * minRebuildGain;
    }

    // ----- rebuilding -----

    /** Optimum and verdict, both on the snapshot of the counters. */
    method ChoosePartition(currentStats: seq<nat>, currentCrossings: seq<nat>) returns (cuts: seq<nat>, enough: bool)
      requires Valid() && currentStats == stats[..] && currentCrossings == boundaryCrossings[..]
      ensures ValidCuts(cuts, kLockCnt, kBlocks)
      ensures forall d :: ValidCuts(d, kLockCnt, kBlocks) ==>
        MeasuredCost(log, cuts, kBlocks, kLockCnt) <= MeasuredCost(log, d, kBlocks, kLockCnt)
      ensures enough <==> Gains(MeasuredCost(log, partitions, kBlocks, kLockCnt) as real,
                                MeasuredCost(log, cuts, kBlocks, kLockCnt) as real, minRebuildGain)
      ensures enough ==> MeasuredCost(log, cuts, kBlocks, kLockCnt) < MeasuredCost(log, partitions, kBlocks, kLockCnt)
    {
      var prefix := PrefixSum(currentStats);
      cuts := OptimizePartitions(prefix, currentCrossings);
      enough := HasEnoughPartitionGain(partitions, cuts, prefix, currentCrossings);
      CheapestForQueries(log, currentStats, currentCrossings, prefix, cuts, kLockCnt);
      CostAccounting(log, currentStats, currentCrossings, prefix, cuts, kLockCnt);
      CostAccounting(log, currentStats, currentCrossings, prefix, partitions, kLockCnt);
    }

    /** What one undisturbed call does.  A partition is published exactly if it is enough cheaper for the
        queries counted since the last reset, and then no other partition is cheaper for them. */
    method RebuildPartitions() returns (published: bool)
      requires Valid()
      modifies this, blockToLock, stats, boundaryCrossings
      ensures Valid() && log == [] && lastStats == old(stats[..])
      ensures published ==>
        && Gains(MeasuredCost(old(log), old(partitions), kBlocks, kLockCnt) as real,
                 MeasuredCost(old(log), partitions, kBlocks, kLockCnt) as real, minRebuildGain)
        && MeasuredCost(old(log), partitions, kBlocks, kLockCnt) < MeasuredCost(old(log), old(partitions), kBlocks, kLockCnt)
        && partitionEpoch == old(partitionEpoch) + 2
      ensures published ==> forall d :: ValidCuts(d, kLockCnt, kBlocks) ==>
        MeasuredCost(old(log), partitions, kBlocks, kLockCnt) <= MeasuredCost(old(log), d, kBlocks, kLockCnt)
      ensures !published ==>
        && partitions == old(partitions) && partitionEpoch == old(partitionEpoch)
        && forall d :: ValidCuts(d, kLockCnt, kBlocks) ==>
             !Gains(MeasuredCost(old(log), partitions, kBlocks, kLockCnt) as real,
                    MeasuredCost(old(log), d, kBlocks, kLockCnt) as real, minRebuildGain)
    {
      var currentStats, currentCrossings := stats[..], boundaryCrossings[..];
      var cuts;
      cuts, published := ChoosePartition(currentStats, currentCrossings);
      forall d | !published && ValidCuts(d, kLockCnt, kBlocks)
        ensures !Gains(MeasuredCost(log, partitions, kBlocks, kLockCnt) as real,
                       MeasuredCost(log, d, kBlocks, kLockCnt) as real, minRebuildGain)
      {
        GainsLess(MeasuredCost(log, partitions, kBlocks, kLockCnt) as real, MeasuredCost(log, cuts, kBlocks, kLockCnt) as real,
                  MeasuredCost(log, d, kBlocks, kLockCnt) as real, minRebuildGain);
      }
      if published {
        partitions := cuts;
        partitionEpoch := partitionEpoch + 1;
        RefreshBlockToLock();
        partitionEpoch := partitionEpoch + 1;
      }
      ResetCollectedStats(currentStats);
    }

    static lemma GainsLess(current: real, x: real, y: real, g: real)
      requires x <= y && g >= 1.0
      ensures Gains(current, y, g) ==> Gains(current, x, g)
    {
      var d := y - x;
      ScaledUp(d, g);
      assert y * g == x * g + d * g;
    }

    method PrefixSum(s: seq<nat>) returns (prefix: seq<nat>)
      requires |s| == kBlocks && 1 <= kLockCnt <= kBlocks
      ensures IsPrefixSum(prefix, s)
      ensures forall i, j :: 0 <= i < j <= kBlocks ==> prefix[i] <= prefix[j]
    {
      prefix := [0];
      var i := 0;
      while i < kBlocks
        invariant 0 <= i <= kBlocks && |prefix| == i + 1 && prefix[0] == 0
        invariant forall b {:trigger s[b]} :: 0 <= b < i ==> prefix[b + 1] == prefix[b] + s[b]
        invariant forall a, b :: 0 <= a < b <= i ==> prefix[a] <= prefix[b]
      {
        prefix := prefix + [prefix[i] + s[i]];
        i := i + 1;
      }
    }
  }
}
