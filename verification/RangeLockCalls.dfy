/** What whole queries and whole rebuilds do. */
module RangeLockCalls {
  import opened Cuts
  import opened LockAccounting
  import opened RangeLockModel
  import opened RangeLockProof

  lemma RunNext(run: seq<State>, m: nat) returns (u: nat)
    requires Run(run) && m + 1 < |run|
    ensures StepOf(run[m], run[m + 1], u) && Fixed(run[m])
  {
    RunInv(run, m);
    assert Next(run[m], run[m + 1]);
    u :| StepOf(run[m], run[m + 1], u);
  }

  /** From state i to state n thread t is not idle. */
  ghost predicate InCall(run: seq<State>, t: nat, i: nat, n: nat) {
    n < |run| && forall l {:trigger run[l]} :: i <= l <= n ==> t < |run[l].th| && !run[l].th[t].Idle?
  }

  // ----- queries -----

  /** The query has run func and is on its way out. */
  predicate Served(pc: Pc) { pc.Release? && !pc.again }

  /** In step p thread t returns from func. */
  ghost predicate ServesAt(run: seq<State>, t: nat, p: nat) {
    p + 1 < |run| && t < |run[p].th| && FuncReturns(run[p], run[p + 1], t)
  }

  /** What a step of thread t does to its query over q. */
  ghost predicate QueryMove(s: State, s': State, t: nat, q: Span)
    requires t < |s.th| && t < |s'.th|
  {
    var pc, pc' := s.th[t], s'.th[t];
    if pc'.Idle? then Served(pc) && !FuncReturns(s, s', t)
    else && HasSpan(pc') && pc'.q == q
         && if FuncReturns(s, s', t) then !Served(pc) && Served(pc') else Served(pc') == Served(pc)
  }

  lemma OwnQueryMove(s: State, s': State, t: nat, q: Span)
    requires StepOf(s, s', t) && HasSpan(s.th[t]) && s.th[t].q == q
    ensures QueryMove(s, s', t, q)
  {
    OnlyQuerySteps(s, s', t);
    if QueryStep(s, s', t) { QueryStepMoves(s, s', t, q); } else { LocksMoveQuery(s, s', t, q); }
  }

  lemma OnlyQuerySteps(s: State, s': State, t: nat)
    requires StepOf(s, s', t) && HasSpan(s.th[t])
    ensures QueryStep(s, s', t) || DoLock(s, s', t) || DoUnlock(s, s', t)
  {
    if RebuildStep(s, s', t) { NoRebuildStep(s, s', t); }
  }

  lemma NoRebuildStep(s: State, s': State, t: nat)
    requires t < |s.th| && s.cuts != [] && RebuildStep(s, s', t)
    ensures !HasSpan(s.th[t])
  {
    if WritesShared(s, s', t) { NoWriterStep(s, s', t); } else { RebuildSplits(s, s', t); }
  }

  lemma NoWriterStep(s: State, s': State, t: nat)
    requires t < |s.th| && s.cuts != [] && WritesShared(s, s', t)
    ensures !HasSpan(s.th[t])
  {
  }

  lemma QueryStepMoves(s: State, s': State, t: nat, q: Span)
    requires t < |s.th| == |s'.th| && QueryStep(s, s', t) && HasSpan(s.th[t]) && s.th[t].q == q
    ensures QueryMove(s, s', t, q)
  {
    if Holding(s.th[t]) { HolderMoves(s, s', t, q); } else { SeekerMoves(s, s', t, q); }
  }

  /** Past the last lock. */
  predicate Holding(pc: Pc) { pc.Check? || Inside(pc) || pc.Release? }

  lemma HolderMoves(s: State, s': State, t: nat, q: Span)
    requires t < |s.th| == |s'.th| && QueryStep(s, s', t) && Holding(s.th[t]) && s.th[t].q == q
    ensures QueryMove(s, s', t, q)
  {
  }

  lemma SeekerMoves(s: State, s': State, t: nat, q: Span)
    requires t < |s.th| == |s'.th| && QueryStep(s, s', t) && HasSpan(s.th[t]) && !Holding(s.th[t]) && s.th[t].q == q
    ensures QueryMove(s, s', t, q)
  {
  }

  lemma LocksMoveQuery(s: State, s': State, t: nat, q: Span)
    requires t < |s.th| == |s'.th| && (DoLock(s, s', t) || DoUnlock(s, s', t)) && HasSpan(s.th[t]) && s.th[t].q == q
    ensures QueryMove(s, s', t, q)
  {
  }

  lemma OtherMove(s: State, s': State, t: nat, u: nat)
    requires StepOf(s, s', u) && u != t && t < |s.th|
    ensures t < |s'.th| && s'.th[t] == s.th[t] && !FuncReturns(s, s', t) && !DoRecord(s, s', t) && !DoPublish(s, s', t)
  {
  }

  lemma RunQueryMove(run: seq<State>, t: nat, m: nat, q: Span)
    requires Run(run) && m + 1 < |run| && t < |run[m].th| && HasSpan(run[m].th[t]) && run[m].th[t].q == q
    ensures t < |run[m + 1].th| && QueryMove(run[m], run[m + 1], t, q)
  {
    var u := RunNext(run, m);
    if u == t { OwnQueryMove(run[m], run[m + 1], t, q); } else { OtherMove(run[m], run[m + 1], t, u); }
  }

  ghost predicate NotServed(run: seq<State>, t: nat, i: nat, n: nat) {
    forall p: nat {:trigger ServesAt(run, t, p)} :: i <= p < n ==> !ServesAt(run, t, p)
  }

  ghost predicate ServedOnce(run: seq<State>, t: nat, i: nat, n: nat, p: nat, q: Span) {
    && i <= p < n && ServesAt(run, t, p) && run[p].th[t].q == q
    && forall p': nat {:trigger ServesAt(run, t, p')} :: i <= p' < n && ServesAt(run, t, p') ==> p' == p
  }

  ghost predicate QueryProgress(run: seq<State>, t: nat, i: nat, n: nat, q: Span) {
    && n < |run| && t < |run[n].th| && HasSpan(run[n].th[t]) && run[n].th[t].q == q
    && if Served(run[n].th[t]) then exists p: nat :: ServedOnce(run, t, i, n, p, q) else NotServed(run, t, i, n)
  }

  lemma {:induction false} QuerySoFar(run: seq<State>, t: nat, i: nat, n: nat, q: Span)
    requires Run(run) && i <= n && InCall(run, t, i, n) && run[i].th[t] == Gate(q)
    ensures QueryProgress(run, t, i, n, q)
    decreases n - i
  {
    if i < n {
      var m := n - 1;
      assert InCall(run, t, i, m);
      QuerySoFar(run, t, i, m, q);
      RunQueryMove(run, t, m, q);
      assert !run[n].th[t].Idle?;
      QueryProgresses(run, t, i, m, q);
    }
  }

  lemma QueryProgresses(run: seq<State>, t: nat, i: nat, m: nat, q: Span)
    requires i <= m && m + 1 < |run| && QueryProgress(run, t, i, m, q)
    requires t < |run[m + 1].th| && !run[m + 1].th[t].Idle? && QueryMove(run[m], run[m + 1], t, q)
    ensures QueryProgress(run, t, i, m + 1, q)
  {
    if Served(run[m + 1].th[t]) {
      if ServesAt(run, t, m) {
        assert ServedOnce(run, t, i, m + 1, m, q);
      } else {
        var p: nat :| ServedOnce(run, t, i, m, p, q);
        assert ServedOnce(run, t, i, m + 1, p, q);
      }
    }
  }

  /** A query that returns has run func exactly once, on its own range, however often it met a rebuild.  It is
      called in the step from state i and returns in the step to state n. */
  lemma WriteQuery(run: seq<State>, t: nat, i: nat, n: nat, q: Span) returns (p: nat)
    requires Run(run) && i + 1 < n < |run| && t < |run[i].th| && run[i].th[t].Idle? && InCall(run, t, i + 1, n - 1)
    requires run[i + 1].th[t] == Gate(q) && t < |run[n].th| && run[n].th[t].Idle?
    ensures ServedOnce(run, t, i, n, p, q)
  {
    QuerySoFar(run, t, i + 1, n - 1, q);
    p := LeavesServed(run, t, i + 1, n - 1, q);
  }

  lemma LeavesServed(run: seq<State>, t: nat, i: nat, m: nat, q: Span) returns (p: nat)
    requires Run(run) && 0 < i <= m && m + 1 < |run| && QueryProgress(run, t, i, m, q)
    requires t < |run[m + 1].th| && run[m + 1].th[t].Idle? && t < |run[i - 1].th| && run[i - 1].th[t].Idle?
    ensures ServedOnce(run, t, i - 1, m + 1, p, q)
  {
    RunQueryMove(run, t, m, q);
    p :| ServedOnce(run, t, i, m, p, q);
    assert !ServesAt(run, t, m) && !ServesAt(run, t, i - 1);
  }

  // ----- counting a query -----

  /** In step p thread t adds one to the counter of block b. */
  ghost predicate CountsBlockAt(run: seq<State>, t: nat, p: nat, b: nat) {
    && p + 1 < |run| && t < |run[p].th| && DoRecord(run[p], run[p + 1], t)
    && b < |run[p].stats| == |run[p + 1].stats| && run[p + 1].stats[b] == run[p].stats[b] + 1
  }

  /** In step p thread t adds one to the crossings of boundary b. */
  ghost predicate CountsBoundaryAt(run: seq<State>, t: nat, p: nat, b: nat) {
    && p + 1 < |run| && t < |run[p].th| && DoRecord(run[p], run[p + 1], t)
    && b < |run[p].crossings| == |run[p + 1].crossings| && run[p + 1].crossings[b] == run[p].crossings[b] + 1
  }

  ghost function BlockCounts(run: seq<State>, t: nat, i: nat, n: nat, b: nat): nat
    requires i <= n
    decreases n
  {
    if i == n then 0 else BlockCounts(run, t, i, n - 1, b) + if CountsBlockAt(run, t, n - 1, b) then 1 else 0
  }

  ghost function BoundaryCounts(run: seq<State>, t: nat, i: nat, n: nat, b: nat): nat
    requires i <= n
    decreases n
  {
    if i == n then 0 else BoundaryCounts(run, t, i, n - 1, b) + if CountsBoundaryAt(run, t, n - 1, b) then 1 else 0
  }

  /** What the thread has added to the counter of block b so far; `sampled` tells for a finished count whether
      there was one. */
  function BlockShare(pc: Pc, sampled: bool, b: nat): nat {
    match pc
    case Record(q, _, _, _, i) => if q.first <= b <= q.last && b < q.first + i then 1 else 0
    case Func(q, _, _, _) => if sampled && q.first <= b <= q.last then 1 else 0
    case Release(q, _, _, again) => if !again && sampled && q.first <= b <= q.last then 1 else 0
    case _ => 0
  }

  function BoundaryShare(pc: Pc, sampled: bool, b: nat): nat {
    match pc
    case Record(q, _, _, _, i) =>
      if q.first < b <= q.last && (b - q.first - 1) + (q.last - q.first + 1) < i then 1 else 0
    case Func(q, _, _, _) => if sampled && q.first < b <= q.last then 1 else 0
    case Release(q, _, _, again) => if !again && sampled && q.first < b <= q.last then 1 else 0
    case _ => 0
  }

  /** Whether a count is finished after the step to pc'. */
  function SampledAfter(pc: Pc, pc': Pc, sampled: bool): bool {
    if pc.Record? && pc'.Func? then true else if pc.Check? then false else sampled
  }

  lemma RecordShares(s: State, s': State, t: nat, b: nat, sampled: bool)
    requires t < |s.th| == |s'.th| && DoRecord(s, s', t) && b < |s.stats| == |s'.stats| && b < |s.crossings| == |s'.crossings|
    ensures var after := SampledAfter(s.th[t], s'.th[t], sampled);
            && BlockShare(s'.th[t], after, b) == BlockShare(s.th[t], sampled, b) + (if s'.stats[b] == s.stats[b] + 1 then 1 else 0)
            && BoundaryShare(s'.th[t], after, b)
                 == BoundaryShare(s.th[t], sampled, b) + (if s'.crossings[b] == s.crossings[b] + 1 then 1 else 0)
  {
  }

  lemma OtherShares(s: State, s': State, t: nat, b: nat, sampled: bool, q: Span)
    requires StepOf(s, s', t) && !DoRecord(s, s', t) && HasSpan(s.th[t]) && s.th[t].q == q && !s'.th[t].Idle?
    ensures var after := SampledAfter(s.th[t], s'.th[t], sampled);
            && BlockShare(s'.th[t], after, b) == BlockShare(s.th[t], sampled, b)
            && BoundaryShare(s'.th[t], after, b) == BoundaryShare(s.th[t], sampled, b)
  {
    OnlyQuerySteps(s, s', t);
    if QueryStep(s, s', t) { QueryStepShares(s, s', t, b, sampled); }
  }

  lemma QueryStepShares(s: State, s': State, t: nat, b: nat, sampled: bool)
    requires t < |s.th| == |s'.th| && QueryStep(s, s', t) && !DoRecord(s, s', t) && HasSpan(s.th[t]) && !s'.th[t].Idle?
    ensures var after := SampledAfter(s.th[t], s'.th[t], sampled);
            && BlockShare(s'.th[t], after, b) == BlockShare(s.th[t], sampled, b)
            && BoundaryShare(s'.th[t], after, b) == BoundaryShare(s.th[t], sampled, b)
  {
    if Holding(s.th[t]) { HolderShares(s, s', t, b, sampled); } else { SeekerShares(s, s', t, b, sampled); }
  }

  lemma HolderShares(s: State, s': State, t: nat, b: nat, sampled: bool)
    requires t < |s.th| == |s'.th| && QueryStep(s, s', t) && !DoRecord(s, s', t) && Holding(s.th[t]) && !s'.th[t].Idle?
    ensures var after := SampledAfter(s.th[t], s'.th[t], sampled);
            && BlockShare(s'.th[t], after, b) == BlockShare(s.th[t], sampled, b)
            && BoundaryShare(s'.th[t], after, b) == BoundaryShare(s.th[t], sampled, b)
  {
  }

  lemma SeekerShares(s: State, s': State, t: nat, b: nat, sampled: bool)
    requires t < |s.th| == |s'.th| && QueryStep(s, s', t) && HasSpan(s.th[t]) && !Holding(s.th[t])
    ensures var after := SampledAfter(s.th[t], s'.th[t], sampled);
            && BlockShare(s'.th[t], after, b) == BlockShare(s.th[t], sampled, b) == 0
            && BoundaryShare(s'.th[t], after, b) == BoundaryShare(s.th[t], sampled, b) == 0
  {
  }

  lemma StepShares(run: seq<State>, t: nat, i: nat, m: nat, b: nat, sampled: bool, q: Span)
    requires Run(run) && i <= m && m + 1 < |run| && t < |run[m].th| && t < |run[m + 1].th| && b < run[m].blocks
    requires HasSpan(run[m].th[t]) && run[m].th[t].q == q && !run[m + 1].th[t].Idle?
    ensures var after := SampledAfter(run[m].th[t], run[m + 1].th[t], sampled);
            && BlockShare(run[m + 1].th[t], after, b)
                 == BlockShare(run[m].th[t], sampled, b) + (if CountsBlockAt(run, t, m, b) then 1 else 0)
            && BoundaryShare(run[m + 1].th[t], after, b)
                 == BoundaryShare(run[m].th[t], sampled, b) + (if CountsBoundaryAt(run, t, m, b) then 1 else 0)
  {
    var u := RunNext(run, m);
    if u != t {
      OtherMove(run[m], run[m + 1], t, u);
    } else if DoRecord(run[m], run[m + 1], t) {
      RecordShares(run[m], run[m + 1], t, b, sampled);
    } else {
      OtherShares(run[m], run[m + 1], t, b, sampled, q);
    }
  }

  lemma {:induction false} SharesSoFar(run: seq<State>, t: nat, i: nat, n: nat, q: Span) returns (sampled: bool)
    requires Run(run) && i <= n && InCall(run, t, i, n) && run[i].th[t] == Gate(q)
    ensures HasSpan(run[n].th[t]) && run[n].th[t].q == q && run[n].blocks == run[i].blocks
    ensures forall b: nat {:trigger BlockCounts(run, t, i, n, b)} :: b < run[i].blocks ==>
              BlockCounts(run, t, i, n, b) == BlockShare(run[n].th[t], sampled, b)
    ensures forall b: nat {:trigger BoundaryCounts(run, t, i, n, b)} :: b < run[i].blocks ==>
              BoundaryCounts(run, t, i, n, b) == BoundaryShare(run[n].th[t], sampled, b)
    decreases n - i
  {
    if i == n {
      sampled := false;
    } else {
      var m := n - 1;
      assert InCall(run, t, i, m);
      var before := SharesSoFar(run, t, i, m, q);
      RunQueryMove(run, t, m, q);
      BlocksStay(run, m);
      assert !run[n].th[t].Idle?;
      sampled := SampledAfter(run[m].th[t], run[n].th[t], before);
      forall b: nat | b < run[i].blocks
        ensures BlockCounts(run, t, i, n, b) == BlockShare(run[n].th[t], sampled, b)
        ensures BoundaryCounts(run, t, i, n, b) == BoundaryShare(run[n].th[t], sampled, b)
      {
        StepShares(run, t, i, m, b, before, q);
        assert BlockCounts(run, t, i, m, b) == BlockShare(run[m].th[t], before, b);
        assert BoundaryCounts(run, t, i, m, b) == BoundaryShare(run[m].th[t], before, b);
      }
    }
  }

  lemma BlocksStay(run: seq<State>, m: nat)
    requires Run(run) && m + 1 < |run|
    ensures run[m + 1].blocks == run[m].blocks
  {
    var u := RunNext(run, m);
    BlocksKept(run[m], run[m + 1], u);
  }

  lemma BlocksKept(s: State, s': State, t: nat)
    requires StepOf(s, s', t)
    ensures s'.blocks == s.blocks
  {
    if RebuildStep(s, s', t) { RebuildKeepsBlocks(s, s', t); }
    else if QueryStep(s, s', t) { QueriesKeepBlocks(s, s', t); }
  }

  lemma RebuildKeepsBlocks(s: State, s': State, t: nat)
    requires t < |s.th| && s.cuts != [] && RebuildStep(s, s', t)
    ensures s'.blocks == s.blocks
  {
  }

  lemma QueriesKeepBlocks(s: State, s': State, t: nat)
    requires t < |s.th| && QueryStep(s, s', t)
    ensures s'.blocks == s.blocks
  {
  }

  /** When a query returns it has been counted in no cell at all, or once in every block of its range and at every
      boundary within it, and nowhere else. */
  lemma CountedOnce(run: seq<State>, t: nat, i: nat, n: nat, q: Span) returns (sampled: bool)
    requires Run(run) && i <= n && InCall(run, t, i, n) && run[i].th[t] == Gate(q) && Served(run[n].th[t])
    ensures forall b: nat :: b < run[i].blocks ==>
      && BlockCounts(run, t, i, n, b) == (if sampled && q.first <= b <= q.last then 1 else 0)
      && BoundaryCounts(run, t, i, n, b) == (if sampled && q.first < b <= q.last then 1 else 0)
  {
    sampled := SharesSoFar(run, t, i, n, q);
  }
}
