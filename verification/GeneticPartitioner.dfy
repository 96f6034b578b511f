/** The partition optimiser: profiles, evaluation, the load-balancing dynamic program and bounded moves. */
module GeneticPartitioners {
  import opened Wrappers
  import opened Cuts
  import opened LockAccounting
  import opened BoundedMoves
  import opened Chromosomes
  import opened Positions

  datatype Metrics = Metrics(contentionScore: nat, avgMutexesPerQuery: real, fitness: real)

  datatype WorkloadComponent = WorkloadComponent(centroid: seq<real>, queries: seq<Query>, bestPartition: Option<seq<nat>>)

  class GeneticPartitioner {
    const blockSize: nat
    const kBlocks: nat
    const kLockCnt: nat
    const maxCutShift: nat
    var components: seq<WorkloadComponent>
    var current: seq<nat>

    ghost predicate Shape() {
      1 <= kLockCnt <= kBlocks < U64 && blockSize > 0 && 1 <= maxCutShift < U64
    }

    ghost predicate Valid()
      reads this
    {
      && Shape() && ValidCutsOf(current, kLockCnt, kBlocks)
      && forall m <- components :: m.bestPartition.Some? ==> ValidCutsOf(m.bestPartition.value, kLockCnt, kBlocks)
    }

    constructor (arraySize: nat, blocks: nat, locks: nat, maxShift: nat)
      requires 1 <= locks <= blocks < U64 && maxShift < U64
      ensures Valid() && kBlocks == blocks && kLockCnt == locks && components == []
      ensures maxCutShift == if maxShift == 0 then 1 else maxShift
      ensures forall size: nat :: size > 0 ==> (size >= blockSize <==> arraySize <= blocks * size)
      ensures forall j :: 0 <= j < locks ==> current[j] == EvenCut(j, locks, blocks)
    {
      forall size: nat | size > 0 ensures size >= BlockSize(arraySize, blocks) <==> arraySize <= blocks * size {
        BlockSizeIsLeast(arraySize, blocks, size);
      }
      blockSize := BlockSize(arraySize, blocks);
      kBlocks, kLockCnt := blocks, locks;
      maxCutShift := if maxShift == 0 then 1 else maxShift;
      components := [];
      var cuts := EvenCuts(blocks, locks);
      CutsAreWords(cuts, locks, blocks);
      current := cuts;
    }

    function PositionToBlock(pos: nat): (b: nat)
      requires Shape()
      ensures b < kBlocks
    {
      BlockOf(pos, blockSize, kBlocks)
    }

    function SpanOf(q: Query): Span
      requires Shape()
    {
      Span(PositionToBlock(q.left), PositionToBlock(q.right))
    }

    /** The blocks of a query are those that hold a position from its left to its right end, and only the block
        that holds both ends if they are swapped. */
    lemma SpanMeets(q: Query, b: nat)
      requires Shape()
      ensures SpanOf(q).first <= b <= SpanOf(q).last <==>
              if q.left <= q.right then exists p: nat :: q.left <= p <= q.right && Holds(b, p, blockSize, kBlocks)
              else Holds(b, q.left, blockSize, kBlocks) && Holds(b, q.right, blockSize, kBlocks)
    {
      if q.left <= q.right {
        BlocksBetween(q.left, q.right, blockSize, kBlocks, b);
      } else {
        BlockMonotone(q.right, q.left, blockSize, kBlocks);
        BlockHolds(q.left, blockSize, kBlocks, b);
        BlockHolds(q.right, blockSize, kBlocks, b);
      }
    }

    function Spans(queries: seq<Query>): (log: seq<Span>)
      requires Shape()
      ensures |log| == |queries|
    {
      if queries == [] then [] else Spans(queries[..|queries| - 1]) + [SpanOf(queries[|queries| - 1])]
    }

    lemma SpansGrow(queries: seq<Query>, i: nat)
      requires Shape() && i < |queries|
      ensures Spans(queries[..i + 1]) == Spans(queries[..i]) + [SpanOf(queries[i])]
    {
      assert queries[..i + 1][..i] == queries[..i];
    }

    // ----- profiles -----

    /** Counts the blocks of every query, a query with its ends swapped having none, and normalises. */
    method BuildBlockProfile(queries: seq<Query>) returns (profile: array<real>)
      requires Shape()
      ensures fresh(profile) && profile.Length == kBlocks && ProfileOf(Spans(queries), profile[..])
    {
      profile := new real[kBlocks](_ => 0.0);
      var totalHits := 0.0;
      NoCounts(profile[..], kBlocks);
      var i := 0;
      while i < |queries|
        invariant 0 <= i <= |queries|
        invariant Counts(Spans(queries[..i]), profile[..])
        invariant totalHits == SumTo(profile[..], kBlocks)
      {
        totalHits := CountQuery(profile, queries[i], Spans(queries[..i]), totalHits);
        SpansGrow(queries, i);
        i := i + 1;
      }
      assert queries[..i] == queries;
      ghost var log := Spans(queries);
      ghost var counts := profile[..];
      CountSum(log, counts, kBlocks);
      if totalHits == 0.0 {
        NothingCounted(log, counts, kBlocks);
        return;
      }
      var b := 0;
      while b < kBlocks
        invariant 0 <= b <= kBlocks
        invariant forall j :: b <= j < kBlocks ==> profile[j] == counts[j]
        invariant forall j :: 0 <= j < b ==> Scales(profile[j], totalHits, counts[j])
      {
        DivideScales(profile[b], totalHits);
        profile[b] := profile[b] / totalHits;
        b := b + 1;
      }
    }

    method CountQuery(profile: array<real>, q: Query, ghost log: seq<Span>, totalHits: real) returns (total: real)
      requires Shape() && profile.Length == kBlocks && Counts(log, profile[..])
      requires totalHits == SumTo(profile[..], kBlocks)
      modifies profile
      ensures Counts(log + [SpanOf(q)], profile[..]) && total == SumTo(profile[..], kBlocks)
    {
      ghost var before := profile[..];
      var leftBlock, rightBlock := PositionToBlock(q.left), PositionToBlock(q.right);
      total := totalHits;
      var block := leftBlock;
      while block <= rightBlock
        invariant if leftBlock <= rightBlock then leftBlock <= block <= rightBlock + 1 else block == leftBlock
        invariant forall b :: 0 <= b < kBlocks ==>
          profile[b] == before[b] + if leftBlock <= b < block then 1.0 else 0.0
        invariant total == SumTo(profile[..], kBlocks)
      {
        SumUpdate(profile[..], block, profile[block] + 1.0, kBlocks);
        ghost var p := profile[..];
        profile[block] := profile[block] + 1.0;
        assert profile[..] == p[block := p[block] + 1.0];
        total := total + 1.0;
        block := block + 1;
      }
      assert (log + [SpanOf(q)])[..|log|] == log;
    }

    // ----- evaluation -----

    /** The first part the block lies in, the last part if it lies in none. */
    static method FindLockForBlock(cuts: seq<nat>, k: nat, block: nat) returns (lock: nat)
      requires |cuts| == k + 1 && k > 0
      ensures lock < k
      ensures InPart(cuts, lock, block) || (lock == k - 1 && forall j :: 0 <= j < k ==> !InPart(cuts, j, block))
    {
      var i := 0;
      while i < k
        invariant 0 <= i <= k
        invariant forall j :: 0 <= j < i ==> !InPart(cuts, j, block)
      {
        if cuts[i] <= block < cuts[i + 1] { return i; }
        i := i + 1;
      }
      return k - 1;
    }

    /** Contention is the sum of the squared loads.  The lock count is kept in 64-bit words, so that a query
        with its ends swapped subtracts. */
    method Evaluate(cuts: seq<nat>, queries: seq<Query>) returns (m: Metrics)
      requires Shape() && ValidCuts(cuts, kLockCnt, kBlocks)
      ensures m.contentionScore == SquaredLoads(Spans(queries), cuts, kBlocks, kLockCnt)
      ensures m.avgMutexesPerQuery == AverageLocks(Spans(queries), cuts)
      ensures m.fitness == Fitness(Spans(queries), cuts, kBlocks, kLockCnt)
    {
      ghost var log := Spans(queries);
      if queries == [] {
        NothingLogged(kBlocks);
        NoContention(log, cuts, kBlocks, kLockCnt);
        return Metrics(0, 0.0, 0.0);
      }
      var blockHits := new nat[kBlocks](_ => 0);
      var totalLocks: nat := 0;
      var i := 0;
      while i < |queries|
        invariant 0 <= i <= |queries|
        invariant HitsOf(Spans(queries[..i]), blockHits[..])
        invariant totalLocks == TotalLocks(Spans(queries[..i]), cuts) % U64
      {
        var q := SpanOf(queries[i]);
        HitBlocks(blockHits, q, Spans(queries[..i]));
        totalLocks := CountLocks(totalLocks, cuts, q, Spans(queries[..i]));
        SpansGrow(queries, i);
        i := i + 1;
      }
      assert queries[..i] == queries;
      var contention := Contention(blockHits[..], cuts, log);
      var avg := totalLocks as real / |queries| as real;
      m := Metrics(contention, avg, contention as real + 5000.0 * avg);
    }

    method CountLocks(totalLocks: nat, cuts: seq<nat>, q: Span, ghost log: seq<Span>) returns (total: nat)
      requires Shape() && ValidCuts(cuts, kLockCnt, kBlocks) && q.first < kBlocks && q.last < kBlocks
      requires totalLocks == TotalLocks(log, cuts) % U64
      ensures total == TotalLocks(log + [q], cuts) % U64
    {
      var firstLock := FindLockForBlock(cuts, kLockCnt, q.first);
      var lastLock := FindLockForBlock(cuts, kLockCnt, q.last);
      FoundLock(cuts, kLockCnt, kBlocks, q.first, firstLock);
      FoundLock(cuts, kLockCnt, kBlocks, q.last, lastLock);
      OneMoreQuery(log, q, cuts);
      WordSum(TotalLocks(log, cuts), (lastLock as int) - firstLock + 1);
      total := ((totalLocks as int) + ((lastLock as int) - firstLock + 1)) % U64;
    }

    method HitBlocks(hits: array<nat>, q: Span, ghost log: seq<Span>)
      requires Shape() && hits.Length == kBlocks && q.first < kBlocks && q.last < kBlocks && HitsOf(log, hits[..])
      modifies hits
      ensures HitsOf(log + [q], hits[..])
    {
      ghost var before := hits[..];
      var block := q.first;
      while block <= q.last
        invariant if q.first <= q.last then q.first <= block <= q.last + 1 else block == q.first
        invariant forall b :: 0 <= b < kBlocks ==> hits[b] == before[b] + if q.first <= b < block then 1 else 0
      {
        hits[block] := hits[block] + 1;
        block := block + 1;
      }
      assert (log + [q])[..|log|] == log;
    }

    method Contention(hits: seq<nat>, cuts: seq<nat>, ghost log: seq<Span>) returns (score: nat)
      requires Shape() && |hits| == kBlocks && HitsOf(log, hits) && ValidCuts(cuts, kLockCnt, kBlocks)
      ensures score == SquaredLoads(log, cuts, kBlocks, kLockCnt)
    {
      ghost var prefix := HitSums(log, kBlocks);
      assert HitCounts(log, kBlocks) == hits;
      score := 0;
      var lockIndex := 0;
      while lockIndex < kLockCnt
        invariant 0 <= lockIndex <= kLockCnt
        invariant score == SquaredLoads(log, cuts, kBlocks, lockIndex)
      {
        var load := LoadOf(hits, cuts, lockIndex, log, prefix);
        score := score + Square(load);
        lockIndex := lockIndex + 1;
      }
    }

    method LoadOf(hits: seq<nat>, cuts: seq<nat>, lockIndex: nat, ghost log: seq<Span>, ghost prefix: seq<nat>)
      returns (load: nat)
      requires Shape() && |hits| == kBlocks && HitsOf(log, hits) && IsPrefixSum(prefix, hits)
      requires ValidCuts(cuts, kLockCnt, kBlocks) && lockIndex < kLockCnt
      ensures load == Load(log, cuts, lockIndex, kBlocks)
    {
      LoadIsDifference(log, hits, prefix, cuts, kLockCnt, lockIndex, kBlocks);
      load := SumHits(hits, cuts[lockIndex], cuts[lockIndex + 1], prefix);
    }

    method SumHits(hits: seq<nat>, from: nat, to: nat, ghost prefix: seq<nat>) returns (load: nat)
      requires IsPrefixSum(prefix, hits) && from <= to <= |hits|
      ensures load == (prefix[to] as int) - prefix[from]
    {
      load := 0;
      var block := from;
      while block < to
        invariant from <= block <= to
        invariant load == (prefix[block] as int) - prefix[from]
      {
        assert prefix[block + 1] == prefix[block] + hits[block];
        load := load + hits[block];
        block := block + 1;
      }
    }

    // ----- balancing -----

    /** Total and prefix sums of a profile, by the same additions. */
    method SumProfile(profile: seq<real>) returns (total: real, prefix: seq<real>)
      ensures total == SumTo(profile, |profile|) && prefix == Masses(profile)
    {
      total := 0.0;
      prefix := [0.0];
      var block := 0;
      while block < |profile|
        invariant 0 <= block <= |profile| && total == SumTo(profile, block)
        invariant |prefix| == block + 1 && forall n :: 0 <= n <= block ==> prefix[n] == SumTo(profile, n)
      {
        total := total + profile[block];
        prefix := prefix + [prefix[block] + profile[block]];
        block := block + 1;
      }
    }

    ghost predicate Tables(dp: array2<Option<real>>, split: array2<nat>) {
      && Shape()
      && dp.Length0 == split.Length0 == kBlocks + 1 && dp.Length1 == split.Length1 == kLockCnt + 1
    }

    ghost predicate CellAt(w: Price, dp: array2<Option<real>>, split: array2<nat>, r: nat, k: nat)
      requires Tables(dp, split) && r <= kBlocks && k <= kLockCnt
      reads dp, split
    {
      Cell(w, dp[r, k], split[r, k], r, k, Best(w, r, k))
    }

    /** The rows below r are filled, and so are the first k cells of row r; the rest is still infinite. */
    ghost predicate Filled(w: Price, dp: array2<Option<real>>, split: array2<nat>, r: nat, k: nat)
      requires Tables(dp, split)
      reads dp, split
    {
      && (forall r', k' {:trigger CellAt(w, dp, split, r', k')} ::
            0 <= r' <= kBlocks && 0 <= k' <= kLockCnt && (r' < r || (r' == r && k' < k)) ==> CellAt(w, dp, split, r', k'))
      && (forall r', k' {:trigger dp[r', k']} ::
            0 <= r' <= kBlocks && 0 <= k' <= kLockCnt && (r' > r || (r' == r && k' >= k)) ==> dp[r', k'] == None)
    }

    /** The cells of row r that the pruned loop leaves alone could not have been filled anyway. */
    lemma UnreachableCells(w: Price, dp: array2<Option<real>>, split: array2<nat>, r: nat, k: nat)
      requires Tables(dp, split) && r <= kBlocks && Filled(w, dp, split, r, k)
      requires k == (if r < kLockCnt then r else kLockCnt) + 1
      ensures Filled(w, dp, split, r, kLockCnt + 1)
    {
      forall k' | k <= k' <= kLockCnt ensures CellAt(w, dp, split, r, k') { BestExists(w, r, k'); }
    }

    /** The pruned dynamic program. */
    method MakeLoadBalancedChromosome(profile: seq<real>) returns (cuts: seq<nat>)
      requires Shape() && |profile| == kBlocks
      ensures Balanced(cuts, kLockCnt, profile)
      ensures SumTo(profile, |profile|) <= 0.0 ==> forall j :: 0 <= j < kLockCnt ==> cuts[j] == EvenCut(j, kLockCnt, kBlocks)
    {
      var totalMass, prefix := SumProfile(profile);
      if totalMass <= 0.0 {
        cuts := EvenCuts(kBlocks, kLockCnt);
        return;
      }
      ghost var w := MassPrice(prefix);
      var dp := new Option<real>[kBlocks + 1, kLockCnt + 1]((_, _) => None);
      var split := new nat[kBlocks + 1, kLockCnt + 1]((_, _) => 0);
      dp[0, 0] := Some(0.0);
      UnreachableCells(w, dp, split, 0, 1);
      var right := 1;
      while right <= kBlocks
        invariant 1 <= right <= kBlocks + 1
        invariant Filled(w, dp, split, right - 1, kLockCnt + 1)
      {
        var maxLocks := if right < kLockCnt then right else kLockCnt;
        var locks := 1;
        assert CellAt(w, dp, split, right, 0);
        while locks <= maxLocks
          invariant 1 <= locks <= maxLocks + 1
          invariant Filled(w, dp, split, right, locks)
        {
          FillCell(prefix, dp, split, right, locks);
          locks := locks + 1;
        }
        UnreachableCells(w, dp, split, right, locks);
        right := right + 1;
      }
      BestExists(w, kBlocks, kLockCnt);
      forall r, k {:trigger split[r, k]} | 0 <= r <= kBlocks && 0 <= k <= kLockCnt
        ensures Cell(w, Best(w, r, k), split[r, k], r, k, Best(w, r, k))
      {
        assert CellAt(w, dp, split, r, k);
      }
      cuts := FollowSplits(split, w, kBlocks, kLockCnt);
    }

    /** The innermost loop: all last parts that leave a block for each of the others. */
    method FillCell(prefix: seq<real>, dp: array2<Option<real>>, split: array2<nat>, right: nat, locks: nat)
      requires Tables(dp, split) && 1 <= locks <= right <= kBlocks && locks <= kLockCnt && |prefix| == kBlocks + 1
      requires Filled(MassPrice(prefix), dp, split, right, locks)
      modifies dp, split
      ensures Filled(MassPrice(prefix), dp, split, right, locks + 1)
    {
      ghost var w := MassPrice(prefix);
      var left := locks - 1;
      BestBelowExists(w, right, locks, left);
      while left < right
        invariant locks - 1 <= left <= right
        invariant forall r, k :: 0 <= r <= kBlocks && 0 <= k <= kLockCnt && (r != right || k != locks) ==>
          dp[r, k] == old(dp[r, k]) && split[r, k] == old(split[r, k])
        invariant Cell(w, dp[right, locks], split[right, locks], right, locks, BestBelow(w, right, locks, left))
      {
        assert old(CellAt(w, dp, split, left, locks - 1));
        if dp[left, locks - 1].Some? {
          var weight := prefix[right] - prefix[left];
          var candidate := dp[left, locks - 1].value + weight * weight;
          assert candidate == dp[left, locks - 1].value + w(left, right);
          if dp[right, locks].None? || candidate < dp[right, locks].value {
            dp[right, locks] := Some(candidate);
            split[right, locks] := left;
          }
        }
        left := left + 1;
      }
      forall r, k | 0 <= r <= kBlocks && 0 <= k <= kLockCnt && (r < right || (r == right && k < locks + 1))
        ensures CellAt(w, dp, split, r, k)
      {
        if r != right || k != locks { assert old(CellAt(w, dp, split, r, k)); }
      }
    }

    /** On the profile of some queries, the optimum by mass is the optimum by contention. */
    method BalanceQueries(queries: seq<Query>) returns (cuts: seq<nat>, m: Metrics)
      requires Shape()
      ensures LeastContended(Spans(queries), cuts, kLockCnt, kBlocks)
      ensures m.contentionScore == SquaredLoads(Spans(queries), cuts, kBlocks, kLockCnt)
    {
      var profile := BuildBlockProfile(queries);
      cuts := MakeLoadBalancedChromosome(profile[..]);
      BalancedIsLeastContended(Spans(queries), profile[..], cuts, kLockCnt);
      m := Evaluate(cuts, queries);
    }

    // ----- moving -----

    /** A bounded move of every inner cut, repaired.  The result is valid whatever the step is, and the intended
        move exactly if every cut whose 64-bit sum wraps around is harmless. */
    method MoveToward(from: seq<nat>, target: seq<nat>) returns (moved: seq<nat>)
      requires Shape() && ValidCutsOf(from, kLockCnt, kBlocks) && ValidCutsOf(target, kLockCnt, kBlocks)
      ensures moved == Moved(from, target, maxCutShift, kBlocks) && ValidCutsOf(moved, kLockCnt, kBlocks)
      ensures moved == Towards(from, target, maxCutShift) <==> Harmless(from, target, maxCutShift)
    {
      MovedIsTowards(from, target, kLockCnt, kBlocks, maxCutShift);
      MovedIsValid(from, target, kLockCnt, kBlocks, maxCutShift);
      CutsAreWords(Moved(from, target, maxCutShift, kBlocks), kLockCnt, kBlocks);
      if from == target { return from; }
      var internal := new nat[kLockCnt - 1];
      var i := 1;
      while i < kLockCnt
        invariant 1 <= i <= kLockCnt
        invariant forall j {:trigger internal[j]} :: 0 <= j < i - 1 ==>
          internal[j] == StepCut(from[j + 1], target[j + 1], maxCutShift)
      {
        internal[i - 1] := StepCut(from[i], target[i], maxCutShift);
        i := i + 1;
      }
      assert internal[..] == RawCuts(from, target, maxCutShift);
      RepairInternalCuts(internal, kBlocks);
      moved := [0] + internal[..] + [kBlocks];
    }

    /** Makes the best partition of a component, if it has one, the next target. */
    method ActivateComponent(index: nat)
      requires Valid()
      modifies `current
      ensures Valid()
      ensures current == if index < |components| && components[index].bestPartition.Some?
                         then Moved(old(current), components[index].bestPartition.value, maxCutShift, kBlocks)
                         else old(current)
    {
      if index >= |components| { return; }
      var component := components[index];
      if component.bestPartition.Some? {
        current := MoveToward(current, component.bestPartition.value);
      }
    }

    /** Keeps the fitter of the candidate and the partition remembered so far, the candidate in a tie. */
    method RememberBest(index: nat, candidate: seq<nat>, queries: seq<Query>)
      requires Valid() && ValidCutsOf(candidate, kLockCnt, kBlocks)
      modifies `components
      ensures Valid() && |components| == |old(components)|
      ensures forall j :: 0 <= j < |components| && j != index ==> components[j] == old(components[j])
      ensures index < |components| ==>
        var best := old(components[index].bestPartition);
        components[index] == old(components[index]).(bestPartition :=
          if best.Some? && Fitness(Spans(queries), candidate, kBlocks, kLockCnt)
                           > Fitness(Spans(queries), best.value, kBlocks, kLockCnt) then best else Some(candidate))
    {
      if index >= |components| { return; }
      var component := components[index];
      var metrics := Evaluate(candidate, queries);
      if component.bestPartition.Some? {
        var best := Evaluate(component.bestPartition.value, queries);
        if metrics.fitness > best.fitness { return; }
      }
      components := components[index := component.(bestPartition := Some(candidate))];
    }
  }

  predicate InPart(cuts: seq<nat>, i: nat, block: nat)
    requires i + 1 < |cuts|
  {
    cuts[i] <= block < cuts[i + 1]
  }

  /** In valid cuts every block lies in a part, the one FindLockForBlock finds. */
  lemma FoundLock(cuts: seq<nat>, k: nat, r: nat, block: nat, lock: nat)
    requires ValidCuts(cuts, k, r) && block < r && lock < k
    requires InPart(cuts, lock, block) || forall j :: 0 <= j < k ==> !InPart(cuts, j, block)
    ensures lock == PartOf(cuts, block)
  {
    PartOfBlock(cuts, k, r, block, lock);
    PartOfBlock(cuts, k, r, block, PartOf(cuts, block));
    assert InPart(cuts, PartOf(cuts, block), block);
  }

  /** Locks per query; 64-bit words count the locks. */
  function AverageLocks(log: seq<Span>, c: seq<nat>): real
    requires c != []
  {
    if log == [] then 0.0 else (TotalLocks(log, c) % U64) as real / |log| as real
  }

  /** The less the better. */
  function Fitness(log: seq<Span>, c: seq<nat>, blocks: nat, k: nat): real
    requires c != []
  {
    SquaredLoads(log, c, blocks, k) as real + 5000.0 * AverageLocks(log, c)
  }

  // ----- counting -----

  ghost predicate Counts(log: seq<Span>, p: seq<real>) {
    forall b :: 0 <= b < |p| ==> p[b] == Hits(log, b) as real
  }

  lemma {:induction false} NoCounts(p: seq<real>, n: nat)
    requires n <= |p| && forall b :: 0 <= b < |p| ==> p[b] == 0.0
    ensures SumTo(p, n) == 0.0
  {
    NothingSums(p, n);
  }

  lemma {:induction false} CountSum(log: seq<Span>, p: seq<real>, n: nat)
    requires Counts(log, p) && n <= |p|
    ensures SumTo(p, n) == TotalHits(log, n) as real
  {
    if n > 0 { CountSum(log, p, n - 1); }
  }

  lemma {:induction false} NothingCounted(log: seq<Span>, p: seq<real>, n: nat)
    requires Counts(log, p) && n <= |p| && TotalHits(log, n) == 0
    ensures forall b :: 0 <= b < n ==> p[b] == 0.0
  {
    if n > 0 { NothingCounted(log, p, n - 1); }
  }

  lemma {:induction false} NothingLogged(n: nat)
    ensures TotalHits([], n) == 0
  {
    if n > 0 { NothingLogged(n - 1); }
  }

  lemma {:induction false} SumUpdate(p: seq<real>, i: nat, x: real, n: nat)
    requires i < |p| && n <= |p|
    ensures SumTo(p[i := x], n) == SumTo(p, n) + if i < n then x - p[i] else 0.0
  {
    if n > 0 { SumUpdate(p, i, x, n - 1); }
  }

  lemma DivideScales(x: real, t: real)
    requires t != 0.0
    ensures Scales(x / t, t, x)
  {
  }

  lemma OneMoreQuery(log: seq<Span>, q: Span, cuts: seq<nat>)
    requires cuts != []
    ensures TotalLocks(log + [q], cuts) == TotalLocks(log, cuts) + LocksOf(cuts, q)
  {
    assert (log + [q])[..|log|] == log;
  }

  lemma WordSum(x: int, y: int)
    ensures (x % U64 + y) % U64 == (x + y) % U64
  {
    var q := x / U64;
    assert x == q * U64 + x % U64;
    var z := x % U64 + y;
    assert z == (z / U64) * U64 + z % U64;
    assert x + y == (q + z / U64) * U64 + z % U64;
  }
}
