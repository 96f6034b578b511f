/** Where a retired object is until it is freed, and when the epoch moves on. */
module DebraRuns {
  import opened DebraModel
  import opened DebraProof

  // ----- conservation -----

  /** Step p is a rotation of thread t that frees r. */
  ghost predicate FreedAt(run: seq<State>, t: nat, r: Retired, p: nat) {
    p + 1 < |run| && exists freed :: RotateEpochBags(run[p], run[p + 1], t, freed) && r in freed
  }

  ghost predicate InBag(s: State, t: nat, j: nat, r: Retired) {
    t < |s.th| && j < |s.th[t].bags| && r in s.th[t].bags[j]
  }

  /** What is in a bag stays there, unless a rotation of its owner frees it. */
  lemma {:induction false} BagKept(run: seq<State>, m: nat, n: nat, t: nat, j: nat, r: Retired)
    requires Run(run) && m <= n < |run| && InBag(run[m], t, j, r)
    ensures InBag(run[n], t, j, r) || exists p: nat :: m <= p < n && FreedAt(run, t, r, p)
    decreases n - m
  {
    if m < n {
      BagKept(run, m, n - 1, t, j, r);
      if InBag(run[n - 1], t, j, r) { BagKeptStep(run, n - 1, t, j, r); }
    }
  }

  lemma BagKeptStep(run: seq<State>, p: nat, t: nat, j: nat, r: Retired)
    requires Run(run) && p + 1 < |run| && InBag(run[p], t, j, r)
    ensures InBag(run[p + 1], t, j, r) || FreedAt(run, t, r, p)
  {
    assert Next(run[p], run[p + 1]);
    var s, s' := run[p], run[p + 1];
    if u: nat, freed :| RotateEpochBags(s, s', u, freed) {
      if u == t && r in freed { assert FreedAt(run, t, r, p); }
    }
  }

  function Stamped(s: State, obj: nat): Retired { Retired(obj, s.epoch, RunningOps(s)) }

  /** Conservation: whatever is retired is from then on in the bag that was current, or has been freed by a
      rotation of its owner. */
  lemma Conservation(run: seq<State>, m: nat, n: nat, t: nat, obj: nat)
    requires Run(run) && m < n < |run| && Retire(run[m], run[m + 1], t, obj)
    ensures InBag(run[n], t, run[m].th[t].index, Stamped(run[m], obj))
            || exists p: nat :: m < p < n && FreedAt(run, t, Stamped(run[m], obj), p)
  {
    BagKept(run, m + 1, n, t, run[m].th[t].index, Stamped(run[m], obj));
  }

  // ----- rotations -----

  ghost predicate RotatesAt(run: seq<State>, t: nat, p: nat) {
    p + 1 < |run| && Rotates(run[p], run[p + 1], t)
  }

  ghost predicate Rotates(s: State, s': State, t: nat) {
    exists freed :: RotateEpochBags(s, s', t, freed)
  }

  /** How many of the steps from m to n are rotations of thread t. */
  ghost function Rotations(run: seq<State>, t: nat, m: nat, n: nat): nat
    requires m <= n
    decreases n
  {
    if m == n then 0 else Rotations(run, t, m, n - 1) + if RotatesAt(run, t, n - 1) then 1 else 0
  }

  lemma IndexStep(run: seq<State>, p: nat, t: nat)
    requires Run(run) && p + 1 < |run| && t < |run[p].th|
    ensures run[p].th[t].index < 3 && t < |run[p + 1].th|
    ensures run[p + 1].th[t].index == if RotatesAt(run, t, p) then NextIndex(run[p].th[t]) else run[p].th[t].index
  {
    RunStep(run, p);
    assert BagsOk(run[p], t);
    var s, s' := run[p], run[p + 1];
    if u: nat, freed :| RotateEpochBags(s, s', u, freed) {
      if u == t { assert RotatesAt(run, t, p); }
    }
  }

  lemma {:induction false} IndexCounts(run: seq<State>, m: nat, n: nat, t: nat)
    requires Run(run) && m <= n < |run| && t < |run[m].th|
    ensures t < |run[n].th| && run[m].th[t].index < 3
    ensures run[n].th[t].index == (run[m].th[t].index + Rotations(run, t, m, n)) % 3
    decreases n - m
  {
    if m == n {
      RunInv(run, m);
      assert BagsOk(run[m], t);
    } else {
      IndexCounts(run, m, n - 1, t);
      IndexStep(run, n - 1, t);
    }
  }

  /** The third rotation after a retirement finds the object in the bag that it empties, and no earlier one does. */
  lemma ThirdRotation(run: seq<State>, m: nat, p: nat, t: nat, obj: nat)
    requires Run(run) && m < p < |run| && Retire(run[m], run[m + 1], t, obj) && RotatesAt(run, t, p)
    ensures Rotations(run, t, m + 1, p) < 2 ==> NextIndex(run[p].th[t]) != run[m].th[t].index
    ensures Rotations(run, t, m + 1, p) == 2 ==>
              NextIndex(run[p].th[t]) == run[m].th[t].index
              && InBag(run[p], t, run[m].th[t].index, Stamped(run[m], obj))
  {
    IndexCounts(run, m + 1, p, t);
    if Rotations(run, t, m + 1, p) == 2 { BagUntouched(run, m + 1, p, t, run[m].th[t].index, Stamped(run[m], obj)); }
  }

  /** Rotations take nothing from a bag before they get to it. */
  lemma {:induction false} BagUntouched(run: seq<State>, m: nat, n: nat, t: nat, j: nat, r: Retired)
    requires Run(run) && m <= n < |run| && InBag(run[m], t, j, r) && run[m].th[t].index == j && Rotations(run, t, m, n) <= 2
    ensures InBag(run[n], t, j, r)
    decreases n - m
  {
    if m < n {
      BagUntouched(run, m, n - 1, t, j, r);
      IndexCounts(run, m, n - 1, t);
      BagKeptStep(run, n - 1, t, j, r);
      if FreedAt(run, t, r, n - 1) { FreedFromNext(run, t, j, r, n - 1); }
    }
  }

  lemma FreedFromNext(run: seq<State>, t: nat, j: nat, r: Retired, p: nat)
    requires p + 1 < |run| && InBag(run[p], t, j, r) && FreedAt(run, t, r, p)
    ensures RotatesAt(run, t, p)
    ensures j != NextIndex(run[p].th[t]) ==> InBag(run[p + 1], t, j, r)
  {
    var freed :| RotateEpochBags(run[p], run[p + 1], t, freed) && r in freed;
    assert RotatesAt(run, t, p);
  }

  /** Thread t sees a new epoch in step p. */
  ghost predicate SeesNewAt(run: seq<State>, t: nat, p: nat) {
    p + 1 < |run| && t < |run[p].th| && t < |run[p + 1].th| && run[p + 1].th[t].local != run[p].th[t].local
  }

  ghost function EpochsSeen(run: seq<State>, t: nat, n: nat): nat {
    if n == 0 then 0 else EpochsSeen(run, t, n - 1) + if SeesNewAt(run, t, n - 1) then 1 else 0
  }

  /** A thread rotates its bags once for every epoch it sees, before it announces it. */
  lemma {:induction false} RotatesForEveryEpoch(run: seq<State>, n: nat, t: nat)
    requires Run(run) && n < |run| && t < |run[n].th|
    ensures EpochsSeen(run, t, n) == Rotations(run, t, 0, n) + if run[n].th[t].pc.Rotate? then 1 else 0
  {
    if n > 0 {
      RunStep(run, n - 1);
      RotatesForEveryEpoch(run, n - 1, t);
      SeeStep(run[n - 1], run[n], t);
    }
  }

  lemma SeeStep(s: State, s': State, t: nat)
    requires Inv(s) && Next(s, s') && t < |s.th| == |s'.th|
    ensures Rotates(s, s', t) ==> s.th[t].pc.Rotate? && !s'.th[t].pc.Rotate? && s'.th[t].local == s.th[t].local
    ensures !Rotates(s, s', t) ==> (s'.th[t].pc.Rotate? <==> s.th[t].pc.Rotate? || s'.th[t].local != s.th[t].local)
    ensures !Rotates(s, s', t) && s.th[t].pc.Rotate? ==> s'.th[t].local == s.th[t].local
  {
    if u: nat, freed :| RotateEpochBags(s, s', u, freed) {
      if u == t { assert Rotates(s, s', t); }
    }
  }

  /** An operation works with the epoch of the moment at which it began. */
  lemma AnnouncesWhatItRead(s: State, s': State, t: nat)
    requires Inv(s) && Next(s, s') && t < |s.th| == |s'.th| && s.th[t].pc.Outside? && !s'.th[t].pc.Outside?
    ensures s'.th[t].local == s.epoch
  {
  }

  // ----- the epoch moves on -----

  /** Thread t reads an announcement in step p. */
  ghost predicate ScansAt(run: seq<State>, t: nat, p: nat) {
    p + 1 < |run| && DoScan(run[p], run[p + 1], t)
  }

  ghost function Scans(run: seq<State>, t: nat, m: nat, n: nat): nat
    requires m <= n
    decreases n
  {
    if m == n then 0 else Scans(run, t, m, n - 1) + if ScansAt(run, t, n - 1) then 1 else 0
  }

  /** Nobody is in an operation announced with an earlier epoch. */
  ghost predicate AllCurrent(s: State) {
    forall u: nat {:trigger s.th[u]} :: u < |s.th| ==>
      Quiescent(s.th[u].announced) || BitsEpoch(s.th[u].announced) == s.epoch
  }

  /** As long as nobody is in the way and the epoch stays, every scan of a thread that works with it counts. */
  lemma {:induction false} ScansCount(run: seq<State>, m: nat, n: nat, t: nat)
    requires Run(run) && m <= n < |run| && t < |run[m].th| && run[m].th[t].local == run[n].epoch == run[m].epoch
    requires forall l {:trigger run[l]} :: m <= l <= n ==> AllCurrent(run[l])
    ensures t < |run[n].th| && run[n].th[t].local == run[n].epoch
    ensures run[n].th[t].checked == run[m].th[t].checked + Scans(run, t, m, n)
    decreases n - m
  {
    if m < n {
      EpochBetween(run, m, n - 1);
      EpochBetween(run, n - 1, n);
      ScansCount(run, m, n - 1, t);
      ScanStep(run, n - 1, t);
    }
  }

  lemma {:induction false} EpochBetween(run: seq<State>, m: nat, n: nat)
    requires Run(run) && m <= n < |run|
    ensures run[m].epoch <= run[n].epoch && |run[m].th| == |run[n].th|
    decreases n - m
  {
    if m < n {
      EpochBetween(run, m, n - 1);
      RunStep(run, n - 1);
    }
  }

  lemma ScanStep(run: seq<State>, p: nat, t: nat)
    requires Run(run) && p + 1 < |run| && t < |run[p].th| && AllCurrent(run[p])
    requires run[p].th[t].local == run[p].epoch == run[p + 1].epoch
    ensures t < |run[p + 1].th| && run[p + 1].th[t].local == run[p].epoch
    ensures run[p + 1].th[t].checked == run[p].th[t].checked + if ScansAt(run, t, p) then 1 else 0
  {
    RunStep(run, p);
    var s, s' := run[p], run[p + 1];
    assert PcOk(s, t);
    if u: nat, freed :| RotateEpochBags(s, s', u, freed) { NotAScan(s, s', t, u, freed); }
  }

  lemma NotAScan(s: State, s': State, t: nat, u: nat, freed: set<Retired>)
    requires RotateEpochBags(s, s', u, freed) && t < |s.th|
    ensures !DoScan(s, s', t)
  {
    assert s'.th[u].pc != s.th[u].pc;
  }

  /** So after as many scans as there are threads the epoch has moved on, or the thread is about to move it. */
  lemma ScansSuffice(run: seq<State>, m: nat, n: nat, t: nat)
    requires Run(run) && m <= n < |run| && t < |run[m].th| && run[m].th[t].local == run[m].epoch
    requires forall l {:trigger run[l]} :: m <= l <= n ==> AllCurrent(run[l])
    requires run[m].th[t].checked + Scans(run, t, m, n) >= |run[m].th|
    ensures t < |run[n].th|
    ensures run[n].epoch > run[m].epoch || run[n].th[t].pc == Advance(run[m].epoch)
  {
    EpochBetween(run, m, n);
    if run[n].epoch == run[m].epoch {
      ScansCount(run, m, n, t);
      RunInv(run, n);
      assert PcOk(run[n], t);
    }
  }

  /** Whoever has been about to move the epoch leaves it moved, by itself or by another. */
  lemma LeavesEpochMoved(run: seq<State>, n: nat, t: nat)
    requires Run(run) && n + 1 < |run| && t < |run[n].th| == |run[n + 1].th|
    requires run[n].th[t].pc.Advance? && !run[n + 1].th[t].pc.Advance?
    ensures run[n + 1].epoch >= run[n].th[t].pc.readEpoch + EPOCH_INCREMENT
  {
    RunStep(run, n);
    assert PcOk(run[n], t) && EpochsOk(run[n], t);
  }

  // ----- how often a thread scans -----

  /** Thread t counts an operation in step p. */
  ghost predicate CountsAt(run: seq<State>, t: nat, p: nat) {
    p + 1 < |run| && DoCount(run[p], run[p + 1], t)
  }

  ghost function Counted(run: seq<State>, t: nat, n: nat): nat {
    if n == 0 then 0 else Counted(run, t, n - 1) + if CountsAt(run, t, n - 1) then 1 else 0
  }

  /** Thread t comes to scan in step p. */
  ghost predicate ComesToScanAt(run: seq<State>, t: nat, p: nat) {
    p + 1 < |run| && t < |run[p].th| && t < |run[p + 1].th| && !run[p].th[t].pc.Scan? && run[p + 1].th[t].pc.Scan?
  }

  ghost function ScansBegun(run: seq<State>, t: nat, n: nat): nat {
    if n == 0 then 0 else ScansBegun(run, t, n - 1) + if ComesToScanAt(run, t, n - 1) then 1 else 0
  }

  /** One operation in `minOps` of those that are counted scans. */
  lemma {:induction false} OneScanInMinOps(run: seq<State>, n: nat, t: nat)
    requires Run(run) && n < |run| && t < |run[n].th| && run[0].minOps > 0
    ensures run[n].minOps == run[0].minOps && run[n].th[t].opsSinceRead < run[0].minOps
    ensures Counted(run, t, n) == ScansBegun(run, t, n) * run[0].minOps + run[n].th[t].opsSinceRead
  {
    if n > 0 {
      RunStep(run, n - 1);
      OneScanInMinOps(run, n - 1, t);
      CountStep(run, n - 1, t);
      OneMoreRound(ScansBegun(run, t, n - 1), run[0].minOps);
    }
  }

  lemma OneMoreRound(a: nat, b: nat)
    ensures (a + 1) * b == a * b + b
  {
  }

  lemma CountStep(run: seq<State>, p: nat, t: nat)
    requires Run(run) && p + 1 < |run| && t < |run[p].th| == |run[p + 1].th| && Inv(run[p]) && Next(run[p], run[p + 1])
    requires run[p].th[t].opsSinceRead < run[p].minOps
    ensures run[p + 1].minOps == run[p].minOps && run[p + 1].th[t].opsSinceRead < run[p].minOps
    ensures ComesToScanAt(run, t, p) ==>
              CountsAt(run, t, p) && run[p + 1].th[t].opsSinceRead == 0 && run[p].th[t].opsSinceRead + 1 == run[p].minOps
    ensures !ComesToScanAt(run, t, p) ==>
              run[p + 1].th[t].opsSinceRead == run[p].th[t].opsSinceRead + if CountsAt(run, t, p) then 1 else 0
  {
  }
}
