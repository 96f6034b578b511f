/** What whole rebuilds do, and that they leave the gate open. */
module RangeLockRebuilds {
  import opened Wrappers
  import opened Cuts
  import opened LockAccounting
  import opened RangeLockModel
  import opened RangeLockProof
  import opened RangeLockCalls

  // ----- the two flags -----

  /** Between setting and clearing `pause_queries_`. */
  predicate Pausing(pc: Pc) {
    || pc.LockAll? || pc.Publish? || pc.BumpToOdd? || pc.Refresh? || pc.BumpToEven? || pc.Reset? || pc.Published?
    || pc.ClearFlag? || pc.Unpause?
  }

  /** A flag that is set was set by a rebuild still under way. */
  ghost predicate FlagsHeld(s: State) {
    && (s.pause ==> exists t: nat {:trigger Pausing(s.th[t])} :: t < |s.th| && Pausing(s.th[t]))
    && (s.flag ==> exists t: nat {:trigger Running(s.th[t])} :: t < |s.th| && Running(s.th[t]))
  }

  lemma LocksKeepStages(pc: Pc, k: nat)
    ensures Wants(pc, k).Some? ==> (Pausing(pc) ==> Pausing(Locked(pc))) && (Running(pc) ==> Running(Locked(pc)))
    ensures Drops(pc, k).Some? ==> (Pausing(pc) ==> Pausing(Unlocked(pc))) && (Running(pc) ==> Running(Unlocked(pc)))
  {
  }

  /** A thread leaves either stage only by clearing the flag. */
  lemma StagesStay(s: State, s': State, t: nat)
    requires StepOf(s, s', t)
    ensures Pausing(s.th[t]) ==> Pausing(s'.th[t]) || !s'.pause
    ensures Running(s.th[t]) ==> Running(s'.th[t]) || !s'.flag
  {
    if DoLock(s, s', t) || DoUnlock(s, s', t) { LocksKeepStages(s.th[t], s.k); }
    else if RebuildStep(s, s', t) { RebuildKeepsStages(s, s', t); }
    else if QueryStep(s, s', t) { QueriesHaveNoStage(s, s', t); }
  }

  lemma QueriesHaveNoStage(s: State, s': State, t: nat)
    requires t < |s.th| && QueryStep(s, s', t)
    ensures !Pausing(s.th[t]) && !Running(s.th[t])
  {
  }

  lemma RebuildKeepsStages(s: State, s': State, t: nat)
    requires t < |s.th| == |s'.th| && s.cuts != [] && RebuildStep(s, s', t)
    ensures Pausing(s.th[t]) ==> Pausing(s'.th[t]) || !s'.pause
    ensures Running(s.th[t]) ==> Running(s'.th[t]) || !s'.flag
  {
    if Pausing(s.th[t]) { PausersStay(s, s', t); }
    if Running(s.th[t]) { RunnersStay(s, s', t); }
  }

  lemma RunnersStay(s: State, s': State, t: nat)
    requires t < |s.th| == |s'.th| && s.cuts != [] && RebuildStep(s, s', t) && Running(s.th[t])
    ensures Running(s'.th[t]) || !s'.flag
  {
    if WritesShared(s, s', t) { WritersRunOn(s, s', t); } else { RebuildSplits(s, s', t); OthersRunOn(s, s', t); }
  }

  lemma WritersRunOn(s: State, s': State, t: nat)
    requires t < |s.th| == |s'.th| && s.cuts != [] && WritesShared(s, s', t) && Running(s.th[t])
    ensures Running(s'.th[t]) || !s'.flag
  {
    if DoReset(s, s', t) { ResetRunsOn(s, s', t); }
  }

  lemma ResetRunsOn(s: State, s': State, t: nat)
    requires t < |s.th| == |s'.th| && DoReset(s, s', t)
    ensures Running(s'.th[t])
  {
  }

  lemma OthersRunOn(s: State, s': State, t: nat)
    requires t < |s.th| == |s'.th| && Running(s.th[t])
    requires Simple(s, s', t) || ReadCell(s, s', t) || DoOptimize(s, s', t) || Forwards(s, s', t)
    ensures Running(s'.th[t])
  {
  }

  lemma PausersStay(s: State, s': State, t: nat)
    requires t < |s.th| == |s'.th| && s.cuts != [] && RebuildStep(s, s', t) && Pausing(s.th[t])
    ensures Pausing(s'.th[t]) || !s'.pause
  {
  }

  /** Who sets a flag enters the stage. */
  lemma FlagsAreSetBy(s: State, s': State, t: nat)
    requires StepOf(s, s', t)
    ensures s'.pause && !s.pause ==> Pausing(s'.th[t])
    ensures s'.flag && !s.flag ==> Running(s'.th[t])
  {
    if DoLock(s, s', t) || DoUnlock(s, s', t) { assert s'.pause == s.pause && s'.flag == s.flag; }
    else if RebuildStep(s, s', t) { RebuildSetsFlags(s, s', t); }
    else if QueryStep(s, s', t) { QueriesLeaveFlags(s, s', t); }
  }

  lemma RebuildSetsFlags(s: State, s': State, t: nat)
    requires t < |s.th| == |s'.th| && s.cuts != [] && RebuildStep(s, s', t)
    ensures s'.pause && !s.pause ==> Pausing(s'.th[t])
    ensures s'.flag && !s.flag ==> Running(s'.th[t])
  {
    if WritesShared(s, s', t) { WritersSetFlags(s, s', t); } else { RebuildSplits(s, s', t); OthersSetFlags(s, s', t); }
  }

  lemma WritersSetFlags(s: State, s': State, t: nat)
    requires t < |s.th| == |s'.th| && s.cuts != [] && WritesShared(s, s', t)
    ensures s'.pause ==> s.pause
    ensures s'.flag && !s.flag ==> Running(s'.th[t])
  {
    if DoReset(s, s', t) { assert s'.pause == s.pause && s'.flag == s.flag; }
  }

  lemma OthersSetFlags(s: State, s': State, t: nat)
    requires t < |s.th| == |s'.th|
    requires Simple(s, s', t) || ReadCell(s, s', t) || DoOptimize(s, s', t) || Forwards(s, s', t)
    ensures s'.pause && !s.pause ==> Pausing(s'.th[t])
    ensures s'.flag == s.flag
  {
  }

  lemma QueriesLeaveFlags(s: State, s': State, t: nat)
    requires t < |s.th| && QueryStep(s, s', t)
    ensures s'.pause == s.pause && s'.flag == s.flag
  {
  }

  lemma FlagsStep(s: State, s': State, t: nat)
    requires StepOf(s, s', t) && FlagsHeld(s)
    ensures FlagsHeld(s')
  {
    StagesStay(s, s', t);
    FlagsAreSetBy(s, s', t);
    if s'.pause {
      if s.pause {
        var u: nat :| u < |s.th| && Pausing(s.th[u]);
        assert Pausing(s'.th[u]);
      } else {
        assert Pausing(s'.th[t]);
      }
    }
    if s'.flag {
      if s.flag {
        var u: nat :| u < |s.th| && Running(s.th[u]);
        assert Running(s'.th[u]);
      } else {
        assert Running(s'.th[t]);
      }
    }
  }

  /** The gate is closed, and a new rebuild refused, only while a rebuild is under way. */
  lemma {:induction false} GateOpens(run: seq<State>, n: nat)
    requires Run(run) && n < |run|
    ensures FlagsHeld(run[n])
  {
    if n == 0 {
      assert Init(run[0]);
    } else {
      GateOpens(run, n - 1);
      var u := RunNext(run, n - 1);
      FlagsStep(run[n - 1], run[n], u);
    }
  }

  lemma LeavesGate(s: State, s': State, t: nat)
    requires StepOf(s, s', t) && s.th[t].Gate? && !s'.th[t].Gate?
    ensures !s.pause
  {
    OnlyQuerySteps(s, s', t);
  }

  /** No query gets past the gate while it is closed. */
  lemma GateHolds(run: seq<State>, n: nat, t: nat)
    requires Run(run) && n + 1 < |run| && t < |run[n].th| == |run[n + 1].th| && run[n].th[t].Gate? && !run[n + 1].th[t].Gate?
    ensures !run[n].pause
  {
    var u := RunNext(run, n);
    if u == t { LeavesGate(run[n], run[n + 1], t); }
  }

  lemma LeavesSetFlag(s: State, s': State, t: nat)
    requires StepOf(s, s', t) && s.th[t].SetFlag?
    ensures s'.th[t] == if s.flag then Idle else Snapshot([], [])
  {
    if QueryStep(s, s', t) { QueriesHaveSpans(s, s', t); }
  }

  lemma QueriesHaveSpans(s: State, s': State, t: nat)
    requires t < |s.th| && QueryStep(s, s', t)
    ensures HasSpan(s.th[t]) || s.th[t].Idle?
  {
  }

  /** A call of RebuildPartitions is refused only while another thread is in one, and otherwise begins its snapshot. */
  lemma RefusedOnlyWhileRunning(run: seq<State>, n: nat, t: nat)
    requires Run(run) && n + 1 < |run| && t < |run[n].th| == |run[n + 1].th|
    requires run[n].th[t].SetFlag? && !run[n + 1].th[t].SetFlag?
    ensures if run[n + 1].th[t].Idle? then exists u: nat :: u < |run[n].th| && u != t && Running(run[n].th[u])
            else run[n + 1].th[t] == Snapshot([], [])
  {
    GateOpens(run, n);
    var u := RunNext(run, n);
    if u == t { LeavesSetFlag(run[n], run[n + 1], t); }
  }

  // ----- giving up -----

  predicate GivingUp(pc: Pc) { pc.LockToGiveUp? || pc.GiveUp? || pc.GivenUp? }

  /** The proposal is worth publishing. */
  ghost predicate Worth(s: State, p: Proposal) {
    p.cuts != s.cuts && Gains(PriceOf(s.cuts, PriceBy(p)), PriceOf(p.cuts, PriceBy(p)), s.minGain)
  }

  lemma GivingUpStep(s: State, s': State, t: nat)
    requires StepOf(s, s', t) && GivingUp(s'.th[t])
    ensures GivingUp(s.th[t]) || (s.th[t].Compare? && !Worth(s, s.th[t].p))
  {
    if RebuildStep(s, s', t) { RebuildGivesUp(s, s', t); }
    else if DoLock(s, s', t) || DoUnlock(s, s', t) { LocksGiveUp(s.th[t], s.k); }
    else { OutsidersGiveNothingUp(s, s', t); }
  }

  lemma LocksGiveUp(pc: Pc, k: nat)
    ensures Wants(pc, k).Some? && GivingUp(Locked(pc)) ==> GivingUp(pc)
    ensures Drops(pc, k).Some? && GivingUp(Unlocked(pc)) ==> GivingUp(pc)
  {
  }

  lemma OutsidersGiveNothingUp(s: State, s': State, t: nat)
    requires t < |s.th| == |s'.th| && (QueryStep(s, s', t) || OneMutex(s, s', t))
    ensures !GivingUp(s'.th[t])
  {
    if QueryStep(s, s', t) { QueriesStayOut(s, s', t); } else { HoldersStayOut(s, s', t); }
    OutsideGivesNothingUp(s'.th[t]);
  }

  lemma OutsideGivesNothingUp(pc: Pc)
    requires HasSpan(pc) || pc.Idle? || pc.LockOne? || pc.HoldOne?
    ensures !GivingUp(pc)
  {
  }

  lemma RebuildGivesUp(s: State, s': State, t: nat)
    requires t < |s.th| == |s'.th| && s.cuts != [] && RebuildStep(s, s', t) && GivingUp(s'.th[t])
    ensures GivingUp(s.th[t]) || (s.th[t].Compare? && !Worth(s, s.th[t].p))
  {
    if WritesShared(s, s', t) { WritersGiveUp(s, s', t); } else { RebuildSplits(s, s', t); OthersGiveUp(s, s', t); }
  }

  lemma WritersGiveUp(s: State, s': State, t: nat)
    requires t < |s.th| == |s'.th| && s.cuts != [] && WritesShared(s, s', t) && GivingUp(s'.th[t])
    ensures GivingUp(s.th[t])
  {
    if DoReset(s, s', t) { ResetGivesUp(s, s', t); }
  }

  lemma ResetGivesUp(s: State, s': State, t: nat)
    requires t < |s.th| == |s'.th| && DoReset(s, s', t)
    ensures GivingUp(s'.th[t]) ==> GivingUp(s.th[t])
  {
  }

  lemma OthersGiveUp(s: State, s': State, t: nat)
    requires t < |s.th| == |s'.th| && GivingUp(s'.th[t])
    requires Simple(s, s', t) || ReadCell(s, s', t) || DoOptimize(s, s', t) || Forwards(s, s', t)
    ensures s.th[t].Compare? && !Worth(s, s.th[t].p)
  {
  }

  /** A rebuild gives up only if, when it compared, its proposal was the current partition or had not the gain. */
  lemma {:induction false} GivesUpForAReason(run: seq<State>, n: nat, t: nat) returns (m: nat)
    requires Run(run) && n < |run| && t < |run[n].th| && GivingUp(run[n].th[t])
    ensures m < n && t < |run[m].th| && run[m].th[t].Compare? && !Worth(run[m], run[m].th[t].p)
    ensures forall l {:trigger run[l]} :: m < l <= n ==> t < |run[l].th| && GivingUp(run[l].th[t])
  {
    assert n > 0 by { assert Init(run[0]); }
    m := n - 1;
    var u := RunNext(run, m);
    if u == t { GivingUpStep(run[m], run[n], t); }
    if GivingUp(run[m].th[t]) { m := GivesUpForAReason(run, m, t); }
  }

  // ----- publishing -----

  ghost predicate PublishesAt(run: seq<State>, t: nat, p: nat) {
    p + 1 < |run| && t < |run[p].th| && DoPublish(run[p], run[p + 1], t)
  }

  /** A rebuild that has published. */
  predicate Behind(pc: Pc) {
    || pc.BumpToOdd? || pc.Refresh? || pc.BumpToEven? || pc.Reset? || pc.Published? || pc.ClearFlag? || pc.Unpause?
    || pc.UnlockAll?
  }

  /** What a step of a thread does to the publication of p. */
  ghost predicate PublishMove(s: State, s': State, t: nat, p: Proposal)
    requires t < |s.th| && t < |s'.th|
  {
    var pc, pc' := s.th[t], s'.th[t];
    if DoPublish(s, s', t) then Better(pc) && Behind(pc') && s'.cuts == p.cuts
    else (Better(pc) ==> Better(pc') && pc'.p == p) && (Behind(pc) ==> Behind(pc') || pc'.Idle?)
  }

  lemma OwnPublishMove(s: State, s': State, t: nat, p: Proposal)
    requires StepOf(s, s', t) && (Behind(s.th[t]) || (Better(s.th[t]) && s.th[t].p == p))
    ensures PublishMove(s, s', t, p)
  {
    if DoLock(s, s', t) || DoUnlock(s, s', t) { LocksMovePublish(s, s', t, p); }
    else if RebuildStep(s, s', t) { RebuildMovesPublish(s, s', t, p); }
    else if QueryStep(s, s', t) { QueriesHaveNoStage(s, s', t); QueriesAreNotBehind(s, s', t); }
  }

  lemma QueriesAreNotBehind(s: State, s': State, t: nat)
    requires t < |s.th| && QueryStep(s, s', t)
    ensures !Behind(s.th[t]) && !Better(s.th[t])
  {
  }

  lemma LocksMovePublish(s: State, s': State, t: nat, p: Proposal)
    requires t < |s.th| == |s'.th| && (DoLock(s, s', t) || DoUnlock(s, s', t))
    requires Behind(s.th[t]) || (Better(s.th[t]) && s.th[t].p == p)
    ensures PublishMove(s, s', t, p)
  {
  }

  lemma RebuildMovesPublish(s: State, s': State, t: nat, p: Proposal)
    requires t < |s.th| == |s'.th| && s.cuts != [] && RebuildStep(s, s', t)
    requires Behind(s.th[t]) || (Better(s.th[t]) && s.th[t].p == p)
    ensures PublishMove(s, s', t, p)
  {
    if Better(s.th[t]) { BetterMoves(s, s', t, p); } else { BehindMoves(s, s', t, p); }
  }

  lemma BetterMoves(s: State, s': State, t: nat, p: Proposal)
    requires t < |s.th| == |s'.th| && s.cuts != [] && RebuildStep(s, s', t) && Better(s.th[t]) && s.th[t].p == p
    ensures PublishMove(s, s', t, p)
  {
  }

  lemma BehindMoves(s: State, s': State, t: nat, p: Proposal)
    requires t < |s.th| == |s'.th| && s.cuts != [] && RebuildStep(s, s', t) && Behind(s.th[t])
    ensures PublishMove(s, s', t, p)
  {
  }

  ghost predicate NotPublished(run: seq<State>, t: nat, i: nat, n: nat) {
    forall j: nat {:trigger PublishesAt(run, t, j)} :: i <= j < n ==> !PublishesAt(run, t, j)
  }

  ghost predicate PublishedOnce(run: seq<State>, t: nat, i: nat, n: nat, j: nat, p: Proposal) {
    && i <= j < n < |run| && PublishesAt(run, t, j) && run[j + 1].cuts == p.cuts
    && forall j': nat {:trigger PublishesAt(run, t, j')} :: i <= j' < n && PublishesAt(run, t, j') ==> j' == j
  }

  ghost predicate PublishProgress(run: seq<State>, t: nat, i: nat, n: nat, p: Proposal) {
    && n < |run| && t < |run[n].th|
    && var pc := run[n].th[t];
       if Better(pc) then pc.p == p && NotPublished(run, t, i, n)
       else Behind(pc) && exists j: nat :: PublishedOnce(run, t, i, n, j, p)
  }

  lemma RunPublishMove(run: seq<State>, t: nat, m: nat, p: Proposal)
    requires Run(run) && m + 1 < |run| && t < |run[m].th|
    requires Behind(run[m].th[t]) || (Better(run[m].th[t]) && run[m].th[t].p == p)
    ensures t < |run[m + 1].th| && PublishMove(run[m], run[m + 1], t, p)
  {
    var u := RunNext(run, m);
    if u == t { OwnPublishMove(run[m], run[m + 1], t, p); } else { OtherMove(run[m], run[m + 1], t, u); }
  }

  lemma {:induction false} PublishSoFar(run: seq<State>, t: nat, i: nat, n: nat, p: Proposal)
    requires Run(run) && i <= n && InCall(run, t, i, n) && run[i].th[t] == Compared(p)
    ensures PublishProgress(run, t, i, n, p)
    decreases n - i
  {
    if i < n {
      var m := n - 1;
      assert InCall(run, t, i, m);
      PublishSoFar(run, t, i, m, p);
      RunPublishMove(run, t, m, p);
      assert !run[n].th[t].Idle?;
      PublishProgresses(run, t, i, m, p);
    }
  }

  lemma PublishProgresses(run: seq<State>, t: nat, i: nat, m: nat, p: Proposal)
    requires i <= m && m + 1 < |run| && PublishProgress(run, t, i, m, p)
    requires t < |run[m + 1].th| && !run[m + 1].th[t].Idle? && PublishMove(run[m], run[m + 1], t, p)
    ensures PublishProgress(run, t, i, m + 1, p)
  {
    if Behind(run[m + 1].th[t]) {
      if PublishesAt(run, t, m) {
        assert PublishedOnce(run, t, i, m + 1, m, p);
      } else {
        var j: nat :| PublishedOnce(run, t, i, m, j, p);
        assert PublishedOnce(run, t, i, m + 1, j, p);
      }
    }
  }

  /** A rebuild whose proposal is better publishes it before it returns, exactly once.  It has compared in state i
      and returns in the step to state n. */
  lemma PublishesBetter(run: seq<State>, t: nat, i: nat, n: nat, p: Proposal) returns (j: nat)
    requires Run(run) && i < n < |run| && InCall(run, t, i, n - 1) && run[i].th[t] == Compared(p)
    requires t < |run[n].th| && run[n].th[t].Idle?
    ensures PublishedOnce(run, t, i, n, j, p)
  {
    PublishSoFar(run, t, i, n - 1, p);
    j := LeavesPublished(run, t, i, n - 1, p);
  }

  lemma LeavesPublished(run: seq<State>, t: nat, i: nat, m: nat, p: Proposal) returns (j: nat)
    requires Run(run) && i <= m && m + 1 < |run| && PublishProgress(run, t, i, m, p)
    requires t < |run[m + 1].th| && run[m + 1].th[t].Idle?
    ensures PublishedOnce(run, t, i, m + 1, j, p)
  {
    RunPublishMove(run, t, m, p);
    j :| PublishedOnce(run, t, i, m, j, p);
    assert !PublishesAt(run, t, m);
  }

  // ----- resetting -----

  /** Cell x: those of stats_ and boundary_crossings_ in turn. */
  function Cell(s: State, x: nat): nat
    requires x / 2 < |s.stats| && x / 2 < |s.crossings|
  {
    if x % 2 == 0 then s.stats[x / 2] else s.crossings[x / 2]
  }

  /** In step m thread t sets cell x to zero. */
  ghost predicate ZeroesAt(run: seq<State>, t: nat, m: nat, x: nat) {
    && m + 1 < |run| && t < |run[m].th| && DoReset(run[m], run[m + 1], t)
    && x / 2 < |run[m + 1].stats| && x / 2 < |run[m + 1].crossings| && Cell(run[m + 1], x) == 0
  }

  /** Cell x has been reset. */
  predicate ResetBeyond(pc: Pc, x: nat, blocks: nat) {
    match pc
    case Reset(i) => x < i
    case GiveUp(i) => x < i
    case Published(_) => x < 2 * blocks
    case GivenUp(_) => x < 2 * blocks
    case _ => false
  }

  lemma ResetStep(s: State, s': State, t: nat, x: nat)
    requires StepOf(s, s', t) && Fixed(s) && ResetBeyond(s'.th[t], x, s.blocks) && !ResetBeyond(s.th[t], x, s.blocks)
    ensures DoReset(s, s', t) && x / 2 < |s'.stats| && x / 2 < |s'.crossings| && Cell(s', x) == 0
  {
    if QueryStep(s, s', t) { QueriesStayOut(s, s', t); }
    else if RebuildStep(s, s', t) { RebuildResets(s, s', t, x); }
    else if DoLock(s, s', t) || DoUnlock(s, s', t) { LocksResetNothing(s.th[t], s.k, x, s.blocks); }
  }

  lemma LocksResetNothing(pc: Pc, k: nat, x: nat, blocks: nat)
    ensures Wants(pc, k).Some? && ResetBeyond(Locked(pc), x, blocks) ==> ResetBeyond(pc, x, blocks)
    ensures Drops(pc, k).Some? && ResetBeyond(Unlocked(pc), x, blocks) ==> ResetBeyond(pc, x, blocks)
  {
  }

  lemma RebuildResets(s: State, s': State, t: nat, x: nat)
    requires t < |s.th| == |s'.th| && Fixed(s) && RebuildStep(s, s', t)
    requires ResetBeyond(s'.th[t], x, s.blocks) && !ResetBeyond(s.th[t], x, s.blocks)
    ensures DoReset(s, s', t) && x / 2 < |s'.stats| && x / 2 < |s'.crossings| && Cell(s', x) == 0
  {
    if DoReset(s, s', t) { ResetsOne(s, s', t, x); }
    else if WritesShared(s, s', t) { WritersResetNothing(s, s', t, x); }
    else { RebuildSplits(s, s', t); OthersResetNothing(s, s', t, x); }
  }

  lemma ResetsOne(s: State, s': State, t: nat, x: nat)
    requires t < |s.th| == |s'.th| && Fixed(s) && DoReset(s, s', t)
    requires ResetBeyond(s'.th[t], x, s.blocks) && !ResetBeyond(s.th[t], x, s.blocks)
    ensures x / 2 < |s'.stats| && x / 2 < |s'.crossings| && Cell(s', x) == 0
  {
  }

  lemma WritersResetNothing(s: State, s': State, t: nat, x: nat)
    requires t < |s.th| == |s'.th| && Fixed(s) && WritesShared(s, s', t) && !DoReset(s, s', t)
    ensures ResetBeyond(s'.th[t], x, s.blocks) ==> ResetBeyond(s.th[t], x, s.blocks)
  {
  }

  lemma OthersResetNothing(s: State, s': State, t: nat, x: nat)
    requires t < |s.th| == |s'.th|
    requires Simple(s, s', t) || ReadCell(s, s', t) || DoOptimize(s, s', t) || Forwards(s, s', t)
    ensures !ResetBeyond(s'.th[t], x, s.blocks)
  {
  }

  /** By the time a rebuild has published or given up it has set every counter to zero. */
  lemma {:induction false} ResetsEveryCell(run: seq<State>, n: nat, t: nat, x: nat) returns (m: nat)
    requires Run(run) && n < |run| && t < |run[n].th| && ResetBeyond(run[n].th[t], x, run[n].blocks)
    ensures m < n && ZeroesAt(run, t, m, x)
    ensures forall l {:trigger run[l]} :: m < l <= n ==> t < |run[l].th| && ResetBeyond(run[l].th[t], x, run[n].blocks)
  {
    assert n > 0 by { assert Init(run[0]); }
    m := n - 1;
    BlocksStay(run, m);
    var u := RunNext(run, m);
    if u == t && !ResetBeyond(run[m].th[t], x, run[m].blocks) { ResetStep(run[m], run[n], t, x); }
    if ResetBeyond(run[m].th[t], x, run[m].blocks) { m := ResetsEveryCell(run, m, t, x); }
  }
}
