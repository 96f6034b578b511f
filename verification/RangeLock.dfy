/**
 The locking protocol of the adaptive range lock, as a state machine.

 Any number of threads run queries, rebuild the partition, or take one of the two bookkeeping mutexes.
 A step is one access to shared memory, one lock or one unlock.  Mutexes 0 .. k-1 guard the parts,
 mutex k is `partitions_mutex_` and mutex k+1 is `stats_mutex_`.
 */
module RangeLockModel {
  import opened Wrappers
  import opened Cuts
  import opened LockAccounting

  /** A new partition and the snapshot of the counters it was computed from. */
  datatype Proposal = Proposal(cuts: seq<nat>, prefix: seq<nat>, crossings: seq<nat>)

  function PriceBy(p: Proposal): Price { EdgePrice(p.prefix, p.crossings) }

  datatype Pc =
    | Idle
    // WriteQuery over the blocks q
    | Gate(q: Span)                                          // waiting for pause_queries_ to clear
    | ReadEpoch(q: Span)
    | ReadLeft(q: Span, e: nat)                              // the epoch was e
    | ReadRight(q: Span, e: nat, lo: nat)
    | Acquire(q: Span, e: nat, lo: nat, hi: nat, n: nat)     // has locked lo .. n-1
    | Check(q: Span, e: nat, lo: nat, hi: nat)               // about to read the epoch again
    | Record(q: Span, e: nat, lo: nat, hi: nat, i: nat)      // has counted the query in i cells
    | Func(q: Span, e: nat, lo: nat, hi: nat)                // running func
    | Release(q: Span, lo: nat, n: nat, again: bool)         // lo .. n-1 are still locked
    // RebuildPartitions
    | SetFlag
    | Snapshot(stats: seq<nat>, crossings: seq<nat>)         // the cells read so far
    | LockToCompare(p: Proposal)
    | Compare(p: Proposal)
    | LockToGiveUp
    | GiveUp(i: nat)                                         // has reset i cells
    | GivenUp(n: nat)                                        // n bookkeeping mutexes are still locked
    | Compared(p: Proposal)
    | Pause(p: Proposal)
    | LockAll(p: Proposal, n: nat)                           // has locked the mutexes below n
    | Publish(p: Proposal)
    | BumpToOdd
    | Refresh(b: nat)                                        // block_to_lock_ is rewritten below b
    | BumpToEven
    | Reset(i: nat)                                          // has reset i cells
    | Published(n: nat)                                      // n bookkeeping mutexes are still locked
    | ClearFlag
    | Unpause
    | UnlockAll(n: nat)
    // holders of one bookkeeping mutex: PartitionCuts, CountLocksForRange, ForceSaveStats, ShouldRebuild
    | LockOne(m: nat)
    | HoldOne(m: nat)

  datatype State = State(
    k: nat,
    blocks: nat,
    minGain: real,
    owner: seq<Option<nat>>,
    map_: seq<nat>,
    cuts: seq<nat>,
    epoch: nat,
    pause: bool,
    flag: bool,
    stats: seq<nat>,
    crossings: seq<nat>,
    th: seq<Pc>)

  /** The mutex a thread is about to lock. */
  function Wants(pc: Pc, k: nat): Option<nat> {
    match pc
    case Acquire(_, _, _, hi, n) => if n <= hi then Some(n) else None
    case LockToCompare(_) => Some(k)
    case LockToGiveUp => Some(k + 1)
    case LockAll(_, n) => if n < k + 2 then Some(n) else None
    case LockOne(m) => Some(m)
    case _ => None
  }

  function Locked(pc: Pc): Pc {
    match pc
    case Acquire(q, e, lo, hi, n) => Acquire(q, e, lo, hi, n + 1)
    case LockToCompare(p) => Compare(p)
    case LockToGiveUp => GiveUp(0)
    case LockAll(p, n) => LockAll(p, n + 1)
    case LockOne(m) => HoldOne(m)
    case _ => pc
  }

  /** The mutex a thread is about to unlock. */
  function Drops(pc: Pc, k: nat): Option<nat> {
    match pc
    case Release(_, lo, n, _) => if lo < n then Some(n - 1) else None
    case Compared(_) => Some(k)
    case GivenUp(n) => if n > 0 then Some(k + n - 1) else None
    case Published(n) => if n > 0 then Some(k + n - 1) else None
    case UnlockAll(n) => if n > 0 then Some(n - 1) else None
    case HoldOne(m) => Some(m)
    case _ => None
  }

  function Unlocked(pc: Pc): Pc {
    match pc
    case Release(q, lo, n, again) => if lo < n then Release(q, lo, n - 1, again) else pc
    case Compared(p) => Pause(p)
    case GivenUp(n) => if n > 0 then GivenUp(n - 1) else pc
    case Published(n) => if n > 0 then Published(n - 1) else pc
    case UnlockAll(n) => if n > 0 then UnlockAll(n - 1) else pc
    case HoldOne(_) => Idle
    case _ => pc
  }

  ghost predicate At(s: State, s': State, t: nat, pc: Pc)
    requires t < |s.th|
  {
    s' == s.(th := s.th[t := pc])
  }

  ghost predicate DoLock(s: State, s': State, t: nat)
    requires t < |s.th|
  {
    var m := Wants(s.th[t], s.k);
    && m.Some? && m.value < |s.owner| && s.owner[m.value].None?
    && s' == s.(owner := s.owner[m.value := Some(t)], th := s.th[t := Locked(s.th[t])])
  }

  ghost predicate DoUnlock(s: State, s': State, t: nat)
    requires t < |s.th|
  {
    var m := Drops(s.th[t], s.k);
    && m.Some? && m.value < |s.owner|
    && s' == s.(owner := s.owner[m.value := None], th := s.th[t := Unlocked(s.th[t])])
  }

  // ----- WriteQuery -----

  /** A step that only moves thread t from pc to pc'. */
  ghost predicate Move(s: State, s': State, t: nat, pc: Pc, pc': Pc)
    requires t < |s.th|
  {
    s.th[t] == pc && At(s, s', t, pc')
  }

  ghost predicate Begin(s: State, s': State, t: nat)
    requires t < |s.th|
  {
    exists q: Span :: q.first <= q.last < s.blocks && Move(s, s', t, Idle, Gate(q))
  }

  ghost predicate PassGate(s: State, s': State, t: nat)
    requires t < |s.th|
  {
    s.th[t].Gate? && !s.pause && At(s, s', t, ReadEpoch(s.th[t].q))
  }

  ghost predicate DoReadEpoch(s: State, s': State, t: nat)
    requires t < |s.th|
  {
    && s.th[t].ReadEpoch?
    && At(s, s', t, if s.epoch % 2 == 1 then Gate(s.th[t].q) else ReadLeft(s.th[t].q, s.epoch))
  }

  ghost predicate DoReadLeft(s: State, s': State, t: nat)
    requires t < |s.th|
  {
    && s.th[t].ReadLeft? && s.th[t].q.first < |s.map_|
    && At(s, s', t, ReadRight(s.th[t].q, s.th[t].e, s.map_[s.th[t].q.first]))
  }

  ghost predicate DoReadRight(s: State, s': State, t: nat)
    requires t < |s.th|
  {
    && s.th[t].ReadRight? && s.th[t].q.last < |s.map_|
    && var ReadRight(q, e, lo) := s.th[t];
       var hi := s.map_[q.last];
       At(s, s', t, if lo > hi then Gate(q) else Acquire(q, e, lo, hi, lo))
  }

  ghost predicate AllAcquired(s: State, s': State, t: nat)
    requires t < |s.th|
  {
    && s.th[t].Acquire? && s.th[t].n > s.th[t].hi
    && At(s, s', t, Check(s.th[t].q, s.th[t].e, s.th[t].lo, s.th[t].hi))
  }

  ghost predicate DoCheck(s: State, s': State, t: nat)
    requires t < |s.th|
  {
    && s.th[t].Check?
    && var Check(q, e, lo, hi) := s.th[t];
       if e != s.epoch || s.epoch % 2 == 1 then At(s, s', t, Release(q, lo, hi + 1, true))
       else At(s, s', t, Record(q, e, lo, hi, 0)) || At(s, s', t, Func(q, e, lo, hi))
  }

  /** UpdateStats counts a sampled query: first the blocks it touches, then the boundaries it crosses. */
  ghost predicate DoRecord(s: State, s': State, t: nat)
    requires t < |s.th|
  {
    && s.th[t].Record? && s.th[t].q.first <= s.th[t].q.last
    && var Record(q, e, lo, hi, i) := s.th[t];
       var width := q.last - q.first + 1;
       if i < width then
         && q.first + i < |s.stats|
         && s' == s.(stats := s.stats[q.first + i := s.stats[q.first + i] + 1],
                     th := s.th[t := Record(q, e, lo, hi, i + 1)])
       else if i < 2 * width - 1 then
         var b := q.first + 1 + (i - width);
         && b < |s.crossings|
         && s' == s.(crossings := s.crossings[b := s.crossings[b] + 1], th := s.th[t := Record(q, e, lo, hi, i + 1)])
       else At(s, s', t, Func(q, e, lo, hi))
  }

  ghost predicate FuncReturns(s: State, s': State, t: nat)
    requires t < |s.th|
  {
    s.th[t].Func? && At(s, s', t, Release(s.th[t].q, s.th[t].lo, s.th[t].hi + 1, false))
  }

  ghost predicate AllReleased(s: State, s': State, t: nat)
    requires t < |s.th|
  {
    && s.th[t].Release? && s.th[t].n <= s.th[t].lo
    && At(s, s', t, if s.th[t].again then Gate(s.th[t].q) else Idle)
  }

  ghost predicate QueryStep(s: State, s': State, t: nat)
    requires t < |s.th|
  {
    || Begin(s, s', t) || PassGate(s, s', t) || DoReadEpoch(s, s', t) || DoReadLeft(s, s', t) || DoReadRight(s, s', t)
    || AllAcquired(s, s', t) || DoCheck(s, s', t) || DoRecord(s, s', t) || FuncReturns(s, s', t) || AllReleased(s, s', t)
  }

  // ----- RebuildPartitions -----

  ghost predicate DoSetFlag(s: State, s': State, t: nat)
    requires t < |s.th|
  {
    s.th[t].SetFlag? && s' == s.(flag := true, th := s.th[t := if s.flag then Idle else Snapshot([], [])])
  }

  /** SnapshotStats and SnapshotBoundaryCrossings read one cell after the other. */
  ghost predicate ReadCell(s: State, s': State, t: nat)
    requires t < |s.th|
  {
    && s.th[t].Snapshot?
    && var Snapshot(stats, crossings) := s.th[t];
       if |stats| < |s.stats| then At(s, s', t, Snapshot(stats + [s.stats[|stats|]], crossings))
       else |crossings| < |s.crossings| && At(s, s', t, Snapshot(stats, crossings + [s.crossings[|crossings|]]))
  }

  /** The proposal is an optimum for the snapshot. */
  ghost predicate DoOptimize(s: State, s': State, t: nat)
    requires t < |s.th|
  {
    && s.th[t].Snapshot? && |s.th[t].stats| == |s.stats| && |s.th[t].crossings| == |s.crossings|
    && exists p: Proposal ::
         && IsPrefixSum(p.prefix, s.th[t].stats) && p.crossings == s.th[t].crossings
         && Cheapest(p.cuts, s.k, s.blocks, PriceBy(p)) && At(s, s', t, LockToCompare(p))
  }

  ghost predicate DoCompare(s: State, s': State, t: nat)
    requires t < |s.th|
  {
    && s.th[t].Compare?
    && var p := s.th[t].p;
       At(s, s', t, if p.cuts != s.cuts && Gains(PriceOf(s.cuts, PriceBy(p)), PriceOf(p.cuts, PriceBy(p)), s.minGain)
                    then Compared(p) else LockToGiveUp)
  }

  /** Resets the i-th cell: those of stats_ and boundary_crossings_ in turn. */
  ghost predicate ResetsCell(s: State, s': State, t: nat, i: nat, pc: Pc)
    requires t < |s.th|
  {
    && i / 2 < |s.stats| && i / 2 < |s.crossings|
    && s' == if i % 2 == 0 then s.(stats := s.stats[i / 2 := 0], th := s.th[t := pc])
             else s.(crossings := s.crossings[i / 2 := 0], th := s.th[t := pc])
  }

  ghost predicate DoReset(s: State, s': State, t: nat)
    requires t < |s.th|
  {
    || (s.th[t].GiveUp? && ResetsCell(s, s', t, s.th[t].i, GiveUp(s.th[t].i + 1)))
    || (s.th[t].Reset? && ResetsCell(s, s', t, s.th[t].i, Reset(s.th[t].i + 1)))
    || (s.th[t].Reset? && s.th[t].i >= 2 * |s.stats| && At(s, s', t, Published(2)))
  }

  ghost predicate DoClearFlag(s: State, s': State, t: nat)
    requires t < |s.th|
  {
    && ((s.th[t].GiveUp? && s.th[t].i >= 2 * |s.stats|) || s.th[t].ClearFlag?)
    && s' == s.(flag := false, th := s.th[t := if s.th[t].GiveUp? then GivenUp(2) else Unpause])
  }

  ghost predicate DoPause(s: State, s': State, t: nat)
    requires t < |s.th|
  {
    s.th[t].Pause? && s' == s.(pause := true, th := s.th[t := LockAll(s.th[t].p, 0)])
  }

  ghost predicate AllLocked(s: State, s': State, t: nat)
    requires t < |s.th|
  {
    s.th[t].LockAll? && s.th[t].n >= s.k + 2 && At(s, s', t, Publish(s.th[t].p))
  }

  ghost predicate DoPublish(s: State, s': State, t: nat)
    requires t < |s.th|
  {
    s.th[t].Publish? && s' == s.(cuts := s.th[t].p.cuts, th := s.th[t := BumpToOdd])
  }

  ghost predicate DoBump(s: State, s': State, t: nat)
    requires t < |s.th|
  {
    && (s.th[t].BumpToOdd? || s.th[t].BumpToEven?)
    && s' == s.(epoch := s.epoch + 1, th := s.th[t := if s.th[t].BumpToOdd? then Refresh(0) else Reset(0)])
  }

  ghost predicate DoRefresh(s: State, s': State, t: nat)
    requires t < |s.th| && s.cuts != []
  {
    && s.th[t].Refresh?
    && var b := s.th[t].b;
       if b < |s.map_| then s' == s.(map_ := s.map_[b := PartOf(s.cuts, b)], th := s.th[t := Refresh(b + 1)])
       else At(s, s', t, BumpToEven)
  }

  ghost predicate DoUnpause(s: State, s': State, t: nat)
    requires t < |s.th|
  {
    s.th[t].Unpause? && s' == s.(pause := false, th := s.th[t := UnlockAll(s.k)])
  }

  ghost predicate Simple(s: State, s': State, t: nat)
    requires t < |s.th|
  {
    || Move(s, s', t, Idle, SetFlag)
    || Move(s, s', t, GivenUp(0), Idle)
    || Move(s, s', t, Published(0), ClearFlag)
    || Move(s, s', t, UnlockAll(0), Idle)
  }

  ghost predicate RebuildStep(s: State, s': State, t: nat)
    requires t < |s.th| && s.cuts != []
  {
    || Simple(s, s', t) || DoSetFlag(s, s', t) || ReadCell(s, s', t) || DoOptimize(s, s', t) || DoCompare(s, s', t) || DoClearFlag(s, s', t)
    || DoPause(s, s', t) || AllLocked(s, s', t) || DoPublish(s, s', t) || DoBump(s, s', t) || DoRefresh(s, s', t)
    || DoReset(s, s', t) || DoUnpause(s, s', t)
  }

  /** Others take one bookkeeping mutex; ForceSaveStats resets cells meanwhile. */
  ghost predicate OneMutex(s: State, s': State, t: nat)
    requires t < |s.th|
  {
    || (s.th[t].Idle? && (At(s, s', t, LockOne(s.k)) || At(s, s', t, LockOne(s.k + 1))))
    || (s.th[t] == HoldOne(s.k + 1) && exists i: nat :: ResetsCell(s, s', t, i, s.th[t]))
  }

  ghost predicate StepOf(s: State, s': State, t: nat) {
    && t < |s.th| == |s'.th| && s'.th == s.th[t := s'.th[t]] && s.cuts != []
    && (DoLock(s, s', t) || DoUnlock(s, s', t) || QueryStep(s, s', t) || RebuildStep(s, s', t) || OneMutex(s, s', t))
  }

  ghost predicate Next(s: State, s': State) {
    exists t: nat :: StepOf(s, s', t)
  }

  ghost predicate Init(s: State) {
    && 1 <= s.k <= s.blocks && s.minGain >= 1.0
    && |s.owner| == s.k + 2 && (forall m :: 0 <= m < |s.owner| ==> s.owner[m].None?)
    && ValidCuts(s.cuts, s.k, s.blocks)
    && |s.map_| == s.blocks && (forall b :: 0 <= b < s.blocks ==> s.map_[b] == PartOf(s.cuts, b))
    && s.epoch == 0 && !s.pause && !s.flag
    && |s.stats| == |s.crossings| == s.blocks
    && forall t :: 0 <= t < |s.th| ==> s.th[t].Idle?
  }

  ghost predicate Run(run: seq<State>) {
    && |run| > 0 && Init(run[0])
    && forall n {:trigger Next(run[n], run[n + 1])} :: 0 <= n < |run| - 1 ==> Next(run[n], run[n + 1])
  }
}

/** Exclusion, freedom from deadlock and improvement of the published partition. */
module RangeLockProof {
  import opened Wrappers
  import opened Cuts
  import opened LockAccounting
  import opened RangeLockModel

  /** The mutexes a thread holds at its program point. */
  predicate Holds(pc: Pc, k: nat, m: nat) {
    match pc
    case Acquire(_, _, lo, _, n) => lo <= m < n
    case Check(_, _, lo, hi) => lo <= m <= hi
    case Record(_, _, lo, hi, _) => lo <= m <= hi
    case Func(_, _, lo, hi) => lo <= m <= hi
    case Release(_, lo, n, _) => lo <= m < n
    case Compare(_) => m == k
    case LockToGiveUp => m == k
    case GiveUp(_) => k <= m < k + 2
    case GivenUp(n) => k <= m < k + n
    case Compared(_) => m == k
    case LockAll(_, n) => m < n
    case Publish(_) => m < k + 2
    case BumpToOdd => m < k + 2
    case Refresh(_) => m < k + 2
    case BumpToEven => m < k + 2
    case Reset(_) => m < k + 2
    case Published(n) => m < k + n
    case ClearFlag => m < k
    case Unpause => m < k
    case UnlockAll(n) => m < n
    case HoldOne(m') => m == m'
    case _ => false
  }

  /** The map belongs to the current cuts. */
  ghost predicate Settled(s: State) {
    && s.epoch % 2 == 0 && s.cuts != []
    && forall b {:trigger s.map_[b]} :: 0 <= b < |s.map_| ==> s.map_[b] == PartOf(s.cuts, b)
  }

  predicate HasEpoch(pc: Pc) { pc.ReadLeft? || pc.ReadRight? || HasHi(pc) }

  predicate HasHi(pc: Pc) { pc.Acquire? || pc.Check? || Inside(pc) }

  /** Past the second look at the epoch: counting the query or running func. */
  predicate Inside(pc: Pc) { pc.Record? || pc.Func? }

  predicate HasSpan(pc: Pc) { pc.Gate? || pc.ReadEpoch? || HasEpoch(pc) || pc.Release? }

  predicate Better(pc: Pc) { pc.Compared? || pc.Pause? || pc.LockAll? || pc.Publish? }

  predicate HasProposal(pc: Pc) { pc.LockToCompare? || pc.Compare? || Better(pc) }

  /** In RebuildPartitions with the rebuild flag set by this thread. */
  predicate Running(pc: Pc) {
    pc.Snapshot? || pc.LockToCompare? || pc.Compare? || pc.LockToGiveUp? || pc.GiveUp? || pc.Compared? || pc.Pause?
    || pc.LockAll? || pc.Publish? || pc.BumpToOdd? || pc.Refresh? || pc.BumpToEven? || pc.Reset? || pc.Published? || pc.ClearFlag?
  }

  /** The counters of a program point are in range. */
  predicate CountsOk(pc: Pc, k: nat, blocks: nat) {
    match pc
    case Acquire(_, _, lo, hi, n) => lo <= n <= hi + 1
    case Release(_, _, n, _) => n <= k
    case LockAll(_, n) => n <= k + 2
    case GivenUp(n) => n <= 2
    case Published(n) => n <= 2
    case UnlockAll(n) => n <= k
    case Refresh(b) => b <= blocks
    case Snapshot(stats, crossings) => |stats| <= blocks && |crossings| <= blocks && (crossings != [] ==> |stats| == blocks)
    case LockOne(m) => k <= m < k + 2
    case HoldOne(m) => k <= m < k + 2
    case _ => true
  }

  /** What a thread knows.  As long as the epoch is still the even one it read, the map entries it read
      are still there: the map only changes while the epoch is odd. */
  ghost predicate PcOk(s: State, pc: Pc)
    requires s.cuts != []
  {
    && CountsOk(pc, s.k, |s.map_|)
    && (HasSpan(pc) ==> pc.q.first <= pc.q.last < |s.map_|)
    && (HasEpoch(pc) ==> pc.e % 2 == 0 && pc.e <= s.epoch)
    && (pc.ReadRight? || HasHi(pc) ==> pc.lo < s.k && (pc.e == s.epoch ==> pc.lo == s.map_[pc.q.first]))
    && (HasHi(pc) ==> pc.lo <= pc.hi < s.k && (pc.e == s.epoch ==> pc.hi == s.map_[pc.q.last]))
    && (Inside(pc) ==> pc.e == s.epoch)
    && (HasProposal(pc) ==> Cheapest(pc.p.cuts, s.k, s.blocks, PriceBy(pc.p)))
    && (Better(pc) ==> Gains(PriceOf(s.cuts, PriceBy(pc.p)), PriceOf(pc.p.cuts, PriceBy(pc.p)), s.minGain))
  }

  /** What the thread that holds `partitions_mutex_` has done to the map. */
  ghost predicate MapOk(s: State)
    requires s.k < |s.owner|
  {
    match s.owner[s.k]
    case None => Settled(s)
    case Some(t) =>
      && t < |s.th| && s.cuts != []
      && match s.th[t]
         case BumpToOdd => s.epoch % 2 == 0
         case Refresh(b) =>
           s.epoch % 2 == 1 && b <= |s.map_| && forall b' {:trigger s.map_[b']} :: 0 <= b' < b ==> s.map_[b'] == PartOf(s.cuts, b')
         case BumpToEven =>
           s.epoch % 2 == 1 && forall b {:trigger s.map_[b]} :: 0 <= b < |s.map_| ==> s.map_[b] == PartOf(s.cuts, b)
         case _ => Settled(s)
  }

  ghost predicate Fixed(s: State) {
    && 1 <= s.k <= s.blocks == |s.map_| == |s.stats| == |s.crossings| && s.minGain >= 1.0 && |s.owner| == s.k + 2
    && ValidCuts(s.cuts, s.k, s.blocks)
    && forall b {:trigger s.map_[b]} :: 0 <= b < |s.map_| ==> s.map_[b] < s.k
  }

  /** A mutex is owned by exactly the thread whose program point says so. */
  ghost predicate OwnerOk(s: State, t: nat, m: nat)
    requires t < |s.th| && m < |s.owner|
  {
    s.owner[m] == Some(t) <==> Holds(s.th[t], s.k, m)
  }

  ghost predicate Inv(s: State) {
    && Fixed(s) && MapOk(s)
    && (forall m {:trigger s.owner[m]} :: 0 <= m < |s.owner| && s.owner[m].Some? ==> s.owner[m].value < |s.th|)
    && (forall t: nat, m: nat {:trigger OwnerOk(s, t, m)} :: t < |s.th| && m < |s.owner| ==> OwnerOk(s, t, m))
    && (forall t: nat {:trigger PcOk(s, s.th[t])} :: t < |s.th| ==> PcOk(s, s.th[t]))
    && (forall t: nat {:trigger Running(s.th[t])} :: t < |s.th| && Running(s.th[t]) ==> s.flag)
    && (forall t: nat, u: nat {:trigger Running(s.th[t]), Running(s.th[u])} ::
          t < |s.th| && u < |s.th| && Running(s.th[t]) && Running(s.th[u]) ==> t == u)
  }

  // ----- exclusion -----

  /** No thread rewrites the map while another runs func. */
  lemma FuncSettled(s: State, t: nat)
    requires Inv(s) && t < |s.th| && Inside(s.th[t])
    ensures Settled(s)
  {
    assert PcOk(s, s.th[t]);
    var lo := s.th[t].lo;
    assert OwnerOk(s, t, lo);
    if s.owner[s.k].Some? {
      var u := s.owner[s.k].value;
      assert OwnerOk(s, u, lo) && OwnerOk(s, u, s.k) && OwnerOk(s, t, s.k);
    }
  }

  /** Two threads that run func share no block. */
  lemma FuncExcludes(s: State, t: nat, u: nat)
    requires Inv(s) && t < |s.th| && u < |s.th| && t != u && Inside(s.th[t]) && Inside(s.th[u])
    ensures s.th[t].q.last < s.th[u].q.first || s.th[u].q.last < s.th[t].q.first
  {
    assert PcOk(s, s.th[t]) && PcOk(s, s.th[u]);
    var b := if s.th[t].q.first <= s.th[u].q.first then s.th[u].q.first else s.th[t].q.first;
    PartOfBlock(s.cuts, s.k, s.blocks, b, 0);
    FuncHolds(s, t, PartOf(s.cuts, b));
    FuncHolds(s, u, PartOf(s.cuts, b));
  }

  /** A thread that runs func holds exactly the locks of the parts its blocks lie in. */
  lemma FuncHolds(s: State, t: nat, m: nat)
    requires Inv(s) && t < |s.th| && Inside(s.th[t]) && m < s.k
    ensures s.owner[m] == Some(t) <==>
            exists b: nat :: s.th[t].q.first <= b <= s.th[t].q.last && PartOf(s.cuts, b) == m
  {
    FuncSettled(s, t);
    assert PcOk(s, s.th[t]) && OwnerOk(s, t, m);
    var q := s.th[t].q;
    assert s.map_[q.first] == PartOf(s.cuts, q.first) && s.map_[q.last] == PartOf(s.cuts, q.last);
    LocksNeeded(s.cuts, s.k, s.blocks, q, m);
  }

  // ----- freedom from deadlock -----

  /** Mutexes are locked in increasing order. */
  lemma OrderedLocking(pc: Pc, k: nat, m: nat, x: nat)
    requires Holds(pc, k, m) && Wants(pc, k) == Some(x)
    ensures m < x
  {
  }

  ghost predicate WaitsFor(s: State, t: nat, u: nat) {
    && t < |s.th| && Wants(s.th[t], s.k).Some?
    && Wants(s.th[t], s.k).value < |s.owner| && s.owner[Wants(s.th[t], s.k).value] == Some(u)
  }

  ghost predicate WaitChain(s: State, p: seq<nat>) {
    forall i, j {:trigger p[i], p[j]} :: 0 <= i < j < |p| && j == i + 1 ==> WaitsFor(s, p[i], p[j])
  }

  lemma WaitRises(s: State, t: nat, u: nat, v: nat)
    requires Inv(s) && WaitsFor(s, t, u) && WaitsFor(s, u, v)
    ensures Wants(s.th[t], s.k).value < Wants(s.th[u], s.k).value
  {
    var x := Wants(s.th[t], s.k).value;
    assert OwnerOk(s, u, x);
    OrderedLocking(s.th[u], s.k, x, Wants(s.th[u], s.k).value);
  }

  lemma {:induction false} ChainRises(s: State, p: seq<nat>, j: nat)
    requires Inv(s) && WaitChain(s, p) && 0 < j < |p| - 1
    ensures WaitsFor(s, p[0], p[1]) && WaitsFor(s, p[j], p[j + 1])
    ensures Wants(s.th[p[0]], s.k).value < Wants(s.th[p[j]], s.k).value
  {
    WaitRises(s, p[j - 1], p[j], p[j + 1]);
    if j > 1 { ChainRises(s, p, j - 1); }
  }

  /** No chain of waiting threads leads back to its start. */
  lemma NoWaitCycle(s: State, p: seq<nat>)
    requires Inv(s) && WaitChain(s, p) && |p| >= 2
    ensures p[0] != p[|p| - 1]
  {
    if p[0] == p[|p| - 1] {
      var q := p + [p[1]];
      assert q[|p| - 1] == p[0] && q[|p|] == p[1] && WaitsFor(s, p[0], p[1]);
      ChainRises(s, q, |p| - 1);
    }
  }

  /** From a thread that waits, the waits-for relation leads to an owner of a mutex that waits for none. */
  lemma {:induction false} SomeOwnerMoves(s: State, t: nat, u: nat) returns (path: seq<nat>)
    requires Inv(s) && WaitsFor(s, t, u)
    ensures |path| >= 2 && path[0] == t && path[1] == u && WaitChain(s, path) && Moves(s, path[|path| - 1])
    decreases |s.owner| - Wants(s.th[t], s.k).value
  {
    path := [t, u];
    if w: nat :| WaitsFor(s, u, w) {
      WaitRises(s, t, u, w);
      var rest := SomeOwnerMoves(s, u, w);
      path := [t] + rest;
    } else {
      assert s.owner[Wants(s.th[t], s.k).value] == Some(u);
    }
  }

  /** Thread v owns a mutex and waits for none. */
  ghost predicate Moves(s: State, v: nat) {
    && v < |s.th| && (exists m :: 0 <= m < |s.owner| && s.owner[m] == Some(v))
    && forall w: nat :: !WaitsFor(s, v, w)
  }

  /** Such a thread can take a step, and one that takes it further. */
  lemma OwnerSteps(s: State, v: nat) returns (s': State)
    requires Inv(s) && Moves(s, v)
    ensures StepOf(s, s', v) && s'.th[v] != s.th[v]
  {
    var pc := s.th[v];
    var m :| 0 <= m < |s.owner| && s.owner[m] == Some(v);
    assert OwnerOk(s, v, m) && PcOk(s, pc);
    if Wants(pc, s.k).Some? {
      s' := WantedIsFree(s, v);
    } else if Drops(pc, s.k).Some? {
      DropsOwn(s, pc, s.k);
      s' := s.(owner := s.owner[Drops(pc, s.k).value := None], th := s.th[v := Unlocked(pc)]);
      assert DoUnlock(s, s', v);
    } else if HasHi(pc) {
      s' := QueryMoves(s, v);
    } else {
      HoldersMove(pc, s.k, m);
      s' := RebuildMoves(s, v);
    }
  }

  lemma WantedIsFree(s: State, v: nat) returns (s': State)
    requires Inv(s) && Moves(s, v) && Wants(s.th[v], s.k).Some?
    ensures StepOf(s, s', v) && s'.th[v] != s.th[v]
  {
    assert PcOk(s, s.th[v]);
    var m := Wants(s.th[v], s.k).value;
    if s.owner[m].Some? { assert WaitsFor(s, v, s.owner[m].value); }
    s' := s.(owner := s.owner[m := Some(v)], th := s.th[v := Locked(s.th[v])]);
    assert DoLock(s, s', v);
  }

  lemma DropsOwn(s: State, pc: Pc, k: nat)
    requires s.cuts != [] && CountsOk(pc, k, |s.map_|) && Drops(pc, k).Some? && |s.owner| == k + 2
    ensures Drops(pc, k).value < |s.owner| && Unlocked(pc) != pc
  {
  }

  /** The program points at which a thread holds mutexes and neither locks, unlocks nor runs a query. */
  predicate Rewrites(pc: Pc, k: nat) {
    || pc.Compare? || pc.GiveUp? || (pc.LockAll? && pc.n >= k + 2) || pc.Publish? || pc.BumpToOdd? || pc.Refresh?
    || pc.BumpToEven? || pc.Reset? || pc == Published(0) || pc.ClearFlag? || pc.Unpause?
  }

  lemma HoldersMove(pc: Pc, k: nat, m: nat)
    requires Holds(pc, k, m) && Wants(pc, k).None? && Drops(pc, k).None? && !HasHi(pc)
    ensures Rewrites(pc, k)
  {
  }

  lemma QueryMoves(s: State, v: nat) returns (s': State)
    requires Fixed(s) && v < |s.th| && PcOk(s, s.th[v]) && HasHi(s.th[v]) && Wants(s.th[v], s.k).None?
    ensures StepOf(s, s', v) && s'.th[v] != s.th[v]
  {
    match s.th[v]
    case Acquire(q, e, lo, hi, n) => {
      s' := s.(th := s.th[v := Check(q, e, lo, hi)]);
      assert AllAcquired(s, s', v);
    }
    case Check(q, e, lo, hi) => {
      s' := s.(th := s.th[v := if e != s.epoch || s.epoch % 2 == 1 then Release(q, lo, hi + 1, true) else Func(q, e, lo, hi)]);
      assert DoCheck(s, s', v);
    }
    case Record(_, _, _, _, _) => { s' := RecordMoves(s, v); }
    case Func(q, e, lo, hi) => {
      s' := s.(th := s.th[v := Release(q, lo, hi + 1, false)]);
      assert FuncReturns(s, s', v);
    }
  }

  lemma RecordMoves(s: State, v: nat) returns (s': State)
    requires Fixed(s) && v < |s.th| && PcOk(s, s.th[v]) && s.th[v].Record?
    ensures StepOf(s, s', v) && s'.th[v] != s.th[v]
  {
    var Record(q, e, lo, hi, i) := s.th[v];
    var width := q.last - q.first + 1;
    if i < width {
      s' := s.(stats := s.stats[q.first + i := s.stats[q.first + i] + 1], th := s.th[v := Record(q, e, lo, hi, i + 1)]);
    } else if i < 2 * width - 1 {
      var b := q.first + 1 + (i - width);
      s' := s.(crossings := s.crossings[b := s.crossings[b] + 1], th := s.th[v := Record(q, e, lo, hi, i + 1)]);
    } else {
      s' := s.(th := s.th[v := Func(q, e, lo, hi)]);
    }
    assert DoRecord(s, s', v);
  }

  lemma RebuildMoves(s: State, v: nat) returns (s': State)
    requires Fixed(s) && v < |s.th| && Rewrites(s.th[v], s.k)
    ensures StepOf(s, s', v) && s'.th[v] != s.th[v]
  {
    match s.th[v]
    case Compare(p) => {
      s' := s.(th := s.th[v := if p.cuts != s.cuts && Gains(PriceOf(s.cuts, PriceBy(p)), PriceOf(p.cuts, PriceBy(p)), s.minGain)
                               then Compared(p) else LockToGiveUp]);
      assert DoCompare(s, s', v);
    }
    case LockAll(p, _) => { s' := s.(th := s.th[v := Publish(p)]); assert AllLocked(s, s', v); }
    case Publish(p) => { s' := s.(cuts := p.cuts, th := s.th[v := BumpToOdd]); assert DoPublish(s, s', v); }
    case BumpToOdd => { s' := s.(epoch := s.epoch + 1, th := s.th[v := Refresh(0)]); assert DoBump(s, s', v); }
    case Refresh(b) => { s' := RefreshMoves(s, v); }
    case BumpToEven => { s' := s.(epoch := s.epoch + 1, th := s.th[v := Reset(0)]); assert DoBump(s, s', v); }
    case Published(_) => { s' := s.(th := s.th[v := ClearFlag]); assert Simple(s, s', v); }
    case Unpause => { s' := s.(pause := false, th := s.th[v := UnlockAll(s.k)]); assert DoUnpause(s, s', v); }
    case _ => { s' := ResetMoves(s, v); }
  }

  lemma RefreshMoves(s: State, v: nat) returns (s': State)
    requires Fixed(s) && v < |s.th| && s.th[v].Refresh?
    ensures StepOf(s, s', v) && s'.th[v] != s.th[v]
  {
    var b := s.th[v].b;
    s' := if b < |s.map_| then s.(map_ := s.map_[b := PartOf(s.cuts, b)], th := s.th[v := Refresh(b + 1)])
          else s.(th := s.th[v := BumpToEven]);
    assert DoRefresh(s, s', v);
  }

  lemma ResetMoves(s: State, v: nat) returns (s': State)
    requires Fixed(s) && v < |s.th| && (s.th[v].GiveUp? || s.th[v].Reset? || s.th[v].ClearFlag?)
    ensures StepOf(s, s', v) && s'.th[v] != s.th[v]
  {
    var pc := s.th[v];
    if pc.ClearFlag? || (pc.GiveUp? && pc.i >= 2 * |s.stats|) {
      s' := s.(flag := false, th := s.th[v := if pc.GiveUp? then GivenUp(2) else Unpause]);
      assert DoClearFlag(s, s', v);
    } else if pc.i >= 2 * |s.stats| {
      s' := s.(th := s.th[v := Published(2)]);
      assert DoReset(s, s', v);
    } else {
      var pc' := if pc.GiveUp? then GiveUp(pc.i + 1) else Reset(pc.i + 1);
      s' := if pc.i % 2 == 0 then s.(stats := s.stats[pc.i / 2 := 0], th := s.th[v := pc'])
            else s.(crossings := s.crossings[pc.i / 2 := 0], th := s.th[v := pc']);
      assert ResetsCell(s, s', v, pc.i, pc');
      assert DoReset(s, s', v);
    }
  }

  // ----- every step keeps the invariant -----

  /** Two states that differ in owners, flags and the program point of thread t only. */
  ghost predicate SameMap(s: State, s': State, t: nat) {
    && t < |s.th| == |s'.th| && s'.th == s.th[t := s'.th[t]]
    && s'.k == s.k && s'.blocks == s.blocks && s'.minGain == s.minGain && |s'.owner| == |s.owner|
    && s'.map_ == s.map_ && s'.cuts == s.cuts && s'.epoch == s.epoch
    && |s'.stats| == |s.stats| && |s'.crossings| == |s.crossings|
  }

  lemma PcsKept(s: State, s': State, t: nat)
    requires Inv(s) && SameMap(s, s', t) && PcOk(s', s'.th[t])
    ensures forall u: nat :: u < |s'.th| ==> PcOk(s', s'.th[u])
  {
    forall u: nat | u < |s'.th| ensures PcOk(s', s'.th[u]) { assert PcOk(s, s.th[u]); }
  }

  lemma LockedHolds(s: State, pc: Pc, x: nat, m: nat)
    requires s.cuts != [] && PcOk(s, pc) && Wants(pc, s.k) == Some(x)
    ensures Holds(Locked(pc), s.k, m) <==> Holds(pc, s.k, m) || m == x
    ensures PcOk(s, Locked(pc)) && (Running(Locked(pc)) <==> Running(pc))
    ensures !Holds(pc, s.k, x) && x < s.k + 2
  {
  }

  lemma UnlockedHolds(s: State, pc: Pc, x: nat, m: nat)
    requires s.cuts != [] && PcOk(s, pc) && Drops(pc, s.k) == Some(x)
    ensures Holds(Unlocked(pc), s.k, m) <==> Holds(pc, s.k, m) && m != x
    ensures PcOk(s, Unlocked(pc)) && (Running(Unlocked(pc)) ==> Running(pc))
    ensures Holds(pc, s.k, x) && x < s.k + 2
  {
  }

  predicate Writing(pc: Pc) { pc.BumpToOdd? || pc.Refresh? || pc.BumpToEven? }

  lemma MapKept(s: State, s': State, t: nat)
    requires Inv(s) && SameMap(s, s', t) && !Writing(s.th[t]) && !Writing(s'.th[t])
    requires s'.owner[s.k] == s.owner[s.k]
             || (s.owner[s.k] in {None, Some(t)} && s'.owner[s.k] in {None, Some(t)})
    ensures MapOk(s')
  {
  }

  lemma FlagsKept(s: State, s': State, t: nat)
    requires Inv(s) && SameMap(s, s', t) && s'.flag == s.flag
    requires Running(s'.th[t]) ==> Running(s.th[t])
    ensures forall u: nat :: u < |s'.th| && Running(s'.th[u]) ==> s'.flag
    ensures forall u: nat, v: nat :: u < |s'.th| && v < |s'.th| && Running(s'.th[u]) && Running(s'.th[v]) ==> u == v
  {
    forall u: nat | u < |s'.th| && Running(s'.th[u]) ensures s'.flag && Running(s.th[u]) { }
  }

  lemma OwnersKept(s: State, s': State, t: nat)
    requires Inv(s) && t < |s.th| == |s'.th| && s'.th == s.th[t := s'.th[t]]
    requires s'.owner == s.owner && s'.k == s.k
    requires forall m: nat :: m < |s.owner| ==> (Holds(s'.th[t], s.k, m) <==> Holds(s.th[t], s.k, m))
    ensures forall u: nat, m: nat :: u < |s'.th| && m < |s'.owner| ==> OwnerOk(s', u, m)
  {
    forall u: nat, m: nat | u < |s'.th| && m < |s'.owner| ensures OwnerOk(s', u, m) { assert OwnerOk(s, u, m); }
  }

  lemma LockKeeps(s: State, s': State, t: nat)
    requires Inv(s) && t < |s.th| && DoLock(s, s', t)
    ensures Inv(s')
  {
    var x := Wants(s.th[t], s.k).value;
    assert PcOk(s, s.th[t]);
    LockedHolds(s, s.th[t], x, 0);
    forall u: nat, m: nat | u < |s'.th| && m < |s'.owner| ensures OwnerOk(s', u, m) {
      assert OwnerOk(s, u, m);
      LockedHolds(s, s.th[t], x, m);
    }
    MapKept(s, s', t);
    PcsKept(s, s', t);
    FlagsKept(s, s', t);
  }

  lemma UnlockKeeps(s: State, s': State, t: nat)
    requires Inv(s) && t < |s.th| && DoUnlock(s, s', t)
    ensures Inv(s')
  {
    var x := Drops(s.th[t], s.k).value;
    assert PcOk(s, s.th[t]);
    UnlockedHolds(s, s.th[t], x, 0);
    forall u: nat, m: nat | u < |s'.th| && m < |s'.owner| ensures OwnerOk(s', u, m) {
      assert OwnerOk(s, u, m) && OwnerOk(s, t, m) && OwnerOk(s, t, x);
      UnlockedHolds(s, s.th[t], x, m);
    }
    assert OwnerOk(s, t, x);
    MapKept(s, s', t);
    PcsKept(s, s', t);
    FlagsKept(s, s', t);
  }

  /** From pc to pc' a thread holds what it held, and writes nothing that others depend on. */
  ghost predicate QuietMove(s: State, pc: Pc, pc': Pc)
    requires s.cuts != []
  {
    && PcOk(s, pc') && !Writing(pc) && !Writing(pc') && (Running(pc') ==> Running(pc))
    && forall m: nat {:trigger Holds(pc, s.k, m)} :: m < s.k + 2 ==> (Holds(pc', s.k, m) <==> Holds(pc, s.k, m))
  }

  lemma QuietKeeps(s: State, s': State, t: nat)
    requires Inv(s) && t < |s.th| == |s'.th| && s'.th == s.th[t := s'.th[t]]
    requires s' == s.(th := s'.th, pause := s'.pause, stats := s'.stats, crossings := s'.crossings)
    requires |s'.stats| == |s.stats| && |s'.crossings| == |s.crossings|
    requires QuietMove(s, s.th[t], s'.th[t])
    ensures Inv(s')
  {
    OwnersKept(s, s', t);
    MapKept(s, s', t);
    PcsKept(s, s', t);
    FlagsKept(s, s', t);
  }

  lemma BeforeLockingKeeps(s: State, s': State, t: nat)
    requires Inv(s) && t < |s.th|
    requires Begin(s, s', t) || PassGate(s, s', t) || DoReadEpoch(s, s', t)
    ensures Inv(s')
  {
    assert PcOk(s, s.th[t]);
    QuietKeeps(s, s', t);
  }

  lemma OneMutexKeeps(s: State, s': State, t: nat)
    requires Inv(s) && t < |s.th| && OneMutex(s, s', t)
    ensures Inv(s')
  {
    assert PcOk(s, s.th[t]);
    OneMutexMove(s, s.th[t], s'.th[t]);
    QuietKeeps(s, s', t);
  }

  lemma OneMutexMove(s: State, pc: Pc, pc': Pc)
    requires s.cuts != [] && PcOk(s, pc)
    requires (pc.Idle? && pc' in {LockOne(s.k), LockOne(s.k + 1)}) || (pc == HoldOne(s.k + 1) && pc' == pc)
    ensures QuietMove(s, pc, pc')
  {
  }

  lemma SimpleMove(s: State, pc: Pc, pc': Pc)
    requires Fixed(s)
    requires (pc, pc') in {(Idle, SetFlag), (GivenUp(0), Idle), (Published(0), ClearFlag), (UnlockAll(0), Idle)}
    ensures QuietMove(s, pc, pc')
  {
  }

  lemma SimpleKeeps(s: State, s': State, t: nat)
    requires Inv(s) && t < |s.th| && Simple(s, s', t)
    ensures Inv(s')
  {
    SimpleMove(s, s.th[t], s'.th[t]);
    QuietKeeps(s, s', t);
  }

  /** Even if the two entries were read on either side of a rewrite of the map. */
  lemma ReadsKeep(s: State, s': State, t: nat)
    requires Inv(s) && t < |s.th| && (DoReadLeft(s, s', t) || DoReadRight(s, s', t))
    ensures Inv(s')
  {
    assert PcOk(s, s.th[t]);
    assert s.map_[s.th[t].q.first] < s.k && s.map_[s.th[t].q.last] < s.k;
    QuietKeeps(s, s', t);
  }

  lemma CheckKeeps(s: State, s': State, t: nat)
    requires Inv(s) && t < |s.th| && DoCheck(s, s', t)
    ensures Inv(s')
  {
    assert PcOk(s, s.th[t]);
    CheckMove(s, s.th[t], s'.th[t]);
    QuietKeeps(s, s', t);
  }

  lemma CheckMove(s: State, pc: Pc, pc': Pc)
    requires s.cuts != [] && pc.Check? && PcOk(s, pc)
    requires var Check(q, e, lo, hi) := pc;
             pc' == Release(q, lo, hi + 1, true) || (e == s.epoch && pc' in {Record(q, e, lo, hi, 0), Func(q, e, lo, hi)})
    ensures QuietMove(s, pc, pc')
  {
  }

  lemma LockedQueryKeeps(s: State, s': State, t: nat)
    requires Inv(s) && t < |s.th|
    requires AllAcquired(s, s', t) || FuncReturns(s, s', t) || AllReleased(s, s', t)
    ensures Inv(s')
  {
    assert PcOk(s, s.th[t]);
    LockedQueryMove(s, s.th[t], s'.th[t]);
    QuietKeeps(s, s', t);
  }

  lemma LockedQueryMove(s: State, pc: Pc, pc': Pc)
    requires s.cuts != [] && PcOk(s, pc)
    requires || (pc.Acquire? && pc.n > pc.hi && pc' == Check(pc.q, pc.e, pc.lo, pc.hi))
             || (pc.Func? && pc' == Release(pc.q, pc.lo, pc.hi + 1, false))
             || (pc.Release? && pc.n <= pc.lo && pc' in {Gate(pc.q), Idle})
    ensures QuietMove(s, pc, pc')
  {
  }

  lemma RecordKeeps(s: State, s': State, t: nat)
    requires Inv(s) && t < |s.th| && DoRecord(s, s', t)
    ensures Inv(s')
  {
    assert PcOk(s, s.th[t]);
    RecordMove(s, s.th[t], s'.th[t]);
    QuietKeeps(s, s', t);
  }

  lemma RecordMove(s: State, pc: Pc, pc': Pc)
    requires s.cuts != [] && pc.Record? && PcOk(s, pc)
    requires pc' == Record(pc.q, pc.e, pc.lo, pc.hi, pc.i + 1) || pc' == Func(pc.q, pc.e, pc.lo, pc.hi)
    ensures QuietMove(s, pc, pc')
  {
  }

  lemma ResetKeeps(s: State, s': State, t: nat)
    requires Inv(s) && t < |s.th| && DoReset(s, s', t)
    ensures Inv(s')
  {
    assert PcOk(s, s.th[t]);
    ResetMove(s, s.th[t], s'.th[t]);
    QuietKeeps(s, s', t);
  }

  lemma ResetMove(s: State, pc: Pc, pc': Pc)
    requires s.cuts != [] && PcOk(s, pc)
    requires (pc.GiveUp? && pc' == GiveUp(pc.i + 1)) || (pc.Reset? && (pc' == Reset(pc.i + 1) || pc' == Published(2)))
    ensures QuietMove(s, pc, pc')
  {
  }

  lemma ReadCellKeeps(s: State, s': State, t: nat)
    requires Inv(s) && t < |s.th| && ReadCell(s, s', t)
    ensures Inv(s')
  {
    assert PcOk(s, s.th[t]);
    QuietKeeps(s, s', t);
  }

  lemma OptimizeKeeps(s: State, s': State, t: nat)
    requires Inv(s) && t < |s.th| && DoOptimize(s, s', t)
    ensures Inv(s')
  {
    assert PcOk(s, s.th[t]);
    OptimizeMove(s, s.th[t], s'.th[t]);
    QuietKeeps(s, s', t);
  }

  lemma OptimizeMove(s: State, pc: Pc, pc': Pc)
    requires s.cuts != [] && PcOk(s, pc) && pc.Snapshot? && pc'.LockToCompare? && PcOk(s, pc')
    ensures QuietMove(s, pc, pc')
  {
  }

  lemma CompareKeeps(s: State, s': State, t: nat)
    requires Inv(s) && t < |s.th| && DoCompare(s, s', t)
    ensures Inv(s')
  {
    assert PcOk(s, s.th[t]);
    CompareMove(s, s.th[t], s'.th[t]);
    QuietKeeps(s, s', t);
  }

  lemma CompareMove(s: State, pc: Pc, pc': Pc)
    requires s.cuts != [] && PcOk(s, pc) && pc.Compare? && (pc'.Compared? || pc'.LockToGiveUp?) && PcOk(s, pc')
    ensures QuietMove(s, pc, pc')
  {
  }

  lemma PausingKeeps(s: State, s': State, t: nat)
    requires Inv(s) && t < |s.th| && (DoPause(s, s', t) || AllLocked(s, s', t))
    ensures Inv(s')
  {
    assert PcOk(s, s.th[t]);
    PausingMove(s, s.th[t], s'.th[t]);
    QuietKeeps(s, s', t);
  }

  lemma PausingMove(s: State, pc: Pc, pc': Pc)
    requires s.cuts != [] && PcOk(s, pc)
    requires (pc.Pause? && pc' == LockAll(pc.p, 0)) || (pc.LockAll? && pc.n >= s.k + 2 && pc' == Publish(pc.p))
    ensures QuietMove(s, pc, pc')
  {
  }

  lemma UnpausingKeeps(s: State, s': State, t: nat)
    requires Inv(s) && t < |s.th| && DoUnpause(s, s', t)
    ensures Inv(s')
  {
    assert PcOk(s, s.th[t]);
    QuietKeeps(s, s', t);
  }

  lemma SetFlagKeeps(s: State, s': State, t: nat)
    requires Inv(s) && t < |s.th| && DoSetFlag(s, s', t)
    ensures Inv(s')
  {
    OwnersKept(s, s', t);
    MapKept(s, s', t);
    PcsKept(s, s', t);
    forall u: nat | u < |s'.th| && u != t ensures Running(s'.th[u]) <==> Running(s.th[u]) { }
  }

  lemma ClearFlagKeeps(s: State, s': State, t: nat)
    requires Inv(s) && t < |s.th| && DoClearFlag(s, s', t)
    ensures Inv(s')
  {
    OwnersKept(s, s', t);
    MapKept(s, s', t);
    PcsKept(s, s', t);
    assert Running(s.th[t]) && !Running(s'.th[t]);
    forall u: nat | u < |s'.th| ensures !Running(s'.th[u]) {
      if u != t { assert Running(s'.th[u]) <==> Running(s.th[u]); }
    }
  }

  /** While t holds every mutex, no other thread runs func. */
  lemma AloneAtAllLocks(s: State, t: nat, u: nat)
    requires Inv(s) && t < |s.th| && u < |s.th| && t != u
    requires forall m: nat :: m < s.k + 2 ==> Holds(s.th[t], s.k, m)
    ensures !Inside(s.th[u])
    ensures s.owner[s.k] == Some(t)
  {
    assert OwnerOk(s, t, s.k) && PcOk(s, s.th[u]);
    var m := if Inside(s.th[u]) then s.th[u].lo else 0;
    assert OwnerOk(s, t, m) && OwnerOk(s, u, m);
  }

  /** What installing the new partition does to the facts of another thread. */
  lemma OtherCriticalPc(s: State, s': State, pc: Pc)
    requires s.cuts != [] && s'.cuts != [] && PcOk(s, pc) && !HasProposal(pc) && !Inside(pc)
    requires s'.k == s.k && |s'.map_| == |s.map_|
    requires s.epoch <= s'.epoch && (s'.map_ != s.map_ ==> s.epoch % 2 == 1)
    ensures PcOk(s', pc)
  {
  }

  /** A step of a thread that holds every mutex and goes on doing so, or is done with the map. */
  ghost predicate CriticalStep(s: State, s': State, t: nat) {
    && t < |s.th| == |s'.th| && (s.th[t].Publish? || Writing(s.th[t])) && (Writing(s'.th[t]) || s'.th[t] == Reset(0))
    && s' == s.(th := s'.th, cuts := s'.cuts, map_ := s'.map_, epoch := s'.epoch) && s'.th == s.th[t := s'.th[t]]
    && Fixed(s') && MapOk(s') && PcOk(s', s'.th[t])
    && s.epoch <= s'.epoch && (s'.map_ != s.map_ ==> s.epoch % 2 == 1)
  }

  lemma CriticalKeeps(s: State, s': State, t: nat)
    requires Inv(s) && CriticalStep(s, s', t)
    ensures Inv(s')
  {
    assert Running(s.th[t]);
    OwnersKept(s, s', t);
    forall u: nat | u < |s'.th| && u != t ensures PcOk(s', s'.th[u]) { OthersCriticalKeep(s, s', t, u); }
    CriticalFlags(s, s', t);
  }

  lemma CriticalFlags(s: State, s': State, t: nat)
    requires Inv(s) && t < |s.th| == |s'.th| && Running(s.th[t]) && s'.th == s.th[t := s'.th[t]] && s'.flag == s.flag
    ensures forall u: nat :: u < |s'.th| && Running(s'.th[u]) ==> s'.flag && u == t
  {
    forall u: nat | u < |s'.th| && Running(s'.th[u]) ensures s'.flag && u == t { assert Running(s.th[u]); }
  }

  lemma OthersCriticalKeep(s: State, s': State, t: nat, u: nat)
    requires Inv(s) && t < |s.th| && u < |s.th| && t != u && (s.th[t].Publish? || Writing(s.th[t]))
    requires s'.cuts != [] && s'.k == s.k && |s'.map_| == |s.map_|
    requires s.epoch <= s'.epoch && (s'.map_ != s.map_ ==> s.epoch % 2 == 1)
    ensures PcOk(s', s.th[u])
  {
    assert PcOk(s, s.th[u]) && Running(s.th[t]);
    AloneAtAllLocks(s, t, u);
    assert !Running(s.th[u]);
    OtherCriticalPc(s, s', s.th[u]);
  }

  lemma PublishKeeps(s: State, s': State, t: nat)
    requires Inv(s) && t < |s.th| && DoPublish(s, s', t)
    ensures Inv(s')
  {
    assert PcOk(s, s.th[t]) && OwnerOk(s, t, s.k);
    CriticalKeeps(s, s', t);
  }

  lemma BumpKeeps(s: State, s': State, t: nat)
    requires Inv(s) && t < |s.th| && DoBump(s, s', t)
    ensures Inv(s')
  {
    assert PcOk(s, s.th[t]) && OwnerOk(s, t, s.k);
    CriticalKeeps(s, s', t);
  }

  lemma RefreshKeeps(s: State, s': State, t: nat)
    requires Inv(s) && t < |s.th| && DoRefresh(s, s', t)
    ensures Inv(s')
  {
    assert PcOk(s, s.th[t]) && OwnerOk(s, t, s.k);
    if s.th[t].b < |s.map_| {
      PartOfBlock(s.cuts, s.k, s.blocks, s.th[t].b, 0);
      RefreshedOne(s, s', t, s.th[t].b);
    } else {
      RefreshedAll(s, s', t, s.th[t].b);
    }
    CriticalKeeps(s, s', t);
  }

  lemma RefreshedOne(s: State, s': State, t: nat, b: nat)
    requires Fixed(s) && MapOk(s) && t < |s.th| && s.owner[s.k] == Some(t) && s.th[t] == Refresh(b) && b < |s.map_|
    requires PartOf(s.cuts, b) < s.k
    requires s' == s.(map_ := s.map_[b := PartOf(s.cuts, b)], th := s.th[t := Refresh(b + 1)])
    ensures CriticalStep(s, s', t)
  {
  }

  lemma RefreshedAll(s: State, s': State, t: nat, b: nat)
    requires Fixed(s) && MapOk(s) && t < |s.th| && s.owner[s.k] == Some(t) && s.th[t] == Refresh(b) && b == |s.map_|
    requires s' == s.(th := s.th[t := BumpToEven])
    ensures CriticalStep(s, s', t)
  {
  }

  lemma QueryStepKeeps(s: State, s': State, t: nat)
    requires Inv(s) && t < |s.th| && QueryStep(s, s', t)
    ensures Inv(s')
  {
    if DoReadLeft(s, s', t) || DoReadRight(s, s', t) { ReadsKeep(s, s', t); }
    else if Begin(s, s', t) || PassGate(s, s', t) || DoReadEpoch(s, s', t) { BeforeLockingKeeps(s, s', t); }
    else if DoRecord(s, s', t) { RecordKeeps(s, s', t); }
    else if DoCheck(s, s', t) { CheckKeeps(s, s', t); }
    else { LockedQueryKeeps(s, s', t); }
  }

  lemma RebuildStepKeeps(s: State, s': State, t: nat)
    requires Inv(s) && t < |s.th| && RebuildStep(s, s', t)
    ensures Inv(s')
  {
    if Simple(s, s', t) { SimpleKeeps(s, s', t); }
    else if DoSetFlag(s, s', t) { SetFlagKeeps(s, s', t); }
    else if DoClearFlag(s, s', t) { ClearFlagKeeps(s, s', t); }
    else if DoPublish(s, s', t) { PublishKeeps(s, s', t); }
    else if DoRefresh(s, s', t) { RefreshKeeps(s, s', t); }
    else if DoBump(s, s', t) { BumpKeeps(s, s', t); }
    else if DoReset(s, s', t) { ResetKeeps(s, s', t); }
    else if ReadCell(s, s', t) { ReadCellKeeps(s, s', t); }
    else if DoOptimize(s, s', t) { OptimizeKeeps(s, s', t); }
    else if DoCompare(s, s', t) { CompareKeeps(s, s', t); }
    else if DoUnpause(s, s', t) { UnpausingKeeps(s, s', t); }
    else { PausingKeeps(s, s', t); }
  }

  lemma NextKeepsInv(s: State, s': State)
    requires Inv(s) && Next(s, s')
    ensures Inv(s')
  {
    var t: nat :| StepOf(s, s', t);
    if DoLock(s, s', t) { LockKeeps(s, s', t); }
    else if DoUnlock(s, s', t) { UnlockKeeps(s, s', t); }
    else if OneMutex(s, s', t) { OneMutexKeeps(s, s', t); }
    else if QueryStep(s, s', t) { QueryStepKeeps(s, s', t); }
    else { RebuildStepKeeps(s, s', t); }
  }

  lemma {:induction false} RunInv(run: seq<State>, n: nat)
    requires Run(run) && n < |run|
    ensures Inv(run[n])
  {
    if n == 0 {
      InitInv(run[0]);
    } else {
      var m := n - 1;
      RunInv(run, m);
      assert Next(run[m], run[m + 1]);
      NextKeepsInv(run[m], run[n]);
    }
  }

  lemma InitInv(s: State)
    requires Init(s)
    ensures Inv(s)
  {
    forall b | 0 <= b < s.blocks ensures s.map_[b] < s.k { PartOfBlock(s.cuts, s.k, s.blocks, b, 0); }
  }

  // ----- whole runs -----

  /** Exclusion: in every reachable state two threads that run func work on disjoint blocks, and each holds
      exactly the locks its blocks need under the current cuts. */
  lemma Exclusion(run: seq<State>, n: nat, t: nat, u: nat)
    requires Run(run) && n < |run| && t < |run[n].th| && u < |run[n].th| && t != u
    requires Inside(run[n].th[t]) && Inside(run[n].th[u])
    ensures run[n].th[t].q.last < run[n].th[u].q.first || run[n].th[u].q.last < run[n].th[t].q.first
  {
    RunInv(run, n);
    FuncExcludes(run[n], t, u);
  }

  lemma HoldsExactlyItsLocks(run: seq<State>, n: nat, t: nat, m: nat)
    requires Run(run) && n < |run| && t < |run[n].th| && Inside(run[n].th[t])
    requires m < run[n].k && |run[n].owner| == run[n].k + 2 && run[n].cuts != []
    ensures run[n].owner[m] == Some(t) <==>
            exists b: nat :: run[n].th[t].q.first <= b <= run[n].th[t].q.last && PartOf(run[n].cuts, b) == m
  {
    RunInv(run, n);
    FuncHolds(run[n], t, m);
  }

  /** Deadlock freedom: in every reachable state the waits-for relation has no cycle, and every chain of
      waiting threads goes on to the owner of a mutex who waits for none and has a step to take. */
  lemma DeadlockFree(run: seq<State>, n: nat, p: seq<nat>) returns (path: seq<nat>, s': State)
    requires Run(run) && n < |run| && |p| >= 2 && WaitChain(run[n], p)
    ensures p[0] != p[|p| - 1]
    ensures |path| >= |p| && path[..|p|] == p && WaitChain(run[n], path) && Moves(run[n], path[|path| - 1])
    ensures StepOf(run[n], s', path[|path| - 1]) && s'.th[path[|path| - 1]] != run[n].th[path[|path| - 1]]
  {
    RunInv(run, n);
    NoWaitCycle(run[n], p);
    var a, b := p[|p| - 2], p[|p| - 1];
    assert WaitsFor(run[n], a, b);
    var rest := SomeOwnerMoves(run[n], a, b);
    path := p + rest[2..];
    assert forall i :: |p| - 2 <= i < |path| ==> path[i] == rest[i - (|p| - 2)];
    s' := OwnerSteps(run[n], path[|path| - 1]);
  }

  lemma OnlyPublishSetsCuts(s: State, s': State, t: nat)
    requires StepOf(s, s', t) && !DoPublish(s, s', t)
    ensures s'.cuts == s.cuts
  {
    if QueryStep(s, s', t) { QueriesKeepCuts(s, s', t); }
    else if RebuildStep(s, s', t) { RebuildKeepsCuts(s, s', t); }
  }

  lemma QueriesKeepCuts(s: State, s': State, t: nat)
    requires t < |s.th| && QueryStep(s, s', t)
    ensures s'.cuts == s.cuts
  {
  }

  lemma RebuildKeepsCuts(s: State, s': State, t: nat)
    requires t < |s.th| && s.cuts != [] && RebuildStep(s, s', t) && !DoPublish(s, s', t)
    ensures s'.cuts == s.cuts
  {
  }

  /** The thread has this proposal and is on its way to publish it. */
  predicate Carries(pc: Pc, p: Proposal) { HasProposal(pc) && pc.p == p }

  /** Every change of the partition is published by a thread t that took a snapshot of the counters,
      computed an optimum for it at step m, and carried that proposal from then on, while nobody else changed
      the partition.  By the snapshot the new partition gains enough over the one it replaces. */
  lemma PublishImproves(run: seq<State>, n: nat) returns (t: nat, m: nat, p: Proposal)
    requires Run(run) && n + 1 < |run| && run[n + 1].cuts != run[n].cuts
    ensures t < |run[n].th| && run[n].th[t] == Publish(p) && DoPublish(run[n], run[n + 1], t)
    ensures m < n && ComputedAt(run[m], run[m + 1], t, p)
    ensures forall i :: m < i <= n ==> t < |run[i].th| && Carries(run[i].th[t], p)
    ensures forall i :: m <= i <= n ==> run[i].cuts == run[n].cuts
    ensures run[n + 1].cuts == p.cuts && Cheapest(p.cuts, run[n].k, run[n].blocks, PriceBy(p))
    ensures ValidCuts(run[n].cuts, run[n].k, run[n].blocks)
    ensures Gains(PriceOf(run[n].cuts, PriceBy(p)), PriceOf(run[n + 1].cuts, PriceBy(p)), run[n].minGain)
    ensures PriceOf(run[n + 1].cuts, PriceBy(p)) < PriceOf(run[n].cuts, PriceBy(p))
  {
    t, p := PublishedBy(run, n);
    m := ProposalOrigin(run, n, t, p);
    forall i | m <= i <= n ensures run[i].cuts == run[n].cuts { NobodyElsePublishes(run, i, n, t, p); }
  }

  lemma PublishedBy(run: seq<State>, n: nat) returns (t: nat, p: Proposal)
    requires Run(run) && n + 1 < |run| && run[n + 1].cuts != run[n].cuts
    ensures t < |run[n].th| && run[n].th[t] == Publish(p) && DoPublish(run[n], run[n + 1], t)
    ensures run[n + 1].cuts == p.cuts && Cheapest(p.cuts, run[n].k, run[n].blocks, PriceBy(p))
    ensures ValidCuts(run[n].cuts, run[n].k, run[n].blocks)
    ensures Gains(PriceOf(run[n].cuts, PriceBy(p)), PriceOf(run[n + 1].cuts, PriceBy(p)), run[n].minGain)
    ensures PriceOf(run[n + 1].cuts, PriceBy(p)) < PriceOf(run[n].cuts, PriceBy(p))
  {
    RunInv(run, n);
    assert Next(run[n], run[n + 1]);
    t :| StepOf(run[n], run[n + 1], t);
    if !DoPublish(run[n], run[n + 1], t) { OnlyPublishSetsCuts(run[n], run[n + 1], t); }
    p := run[n].th[t].p;
    assert PcOk(run[n], run[n].th[t]);
    PublishedGains(run[n], run[n + 1], t);
  }

  /** While a thread carries a proposal, the rebuild flag keeps all others from publishing. */
  lemma {:induction false} NobodyElsePublishes(run: seq<State>, i: nat, n: nat, t: nat, p: Proposal)
    requires Run(run) && i <= n < |run|
    requires t < |run[i].th| && (run[i].th[t].Snapshot? || Carries(run[i].th[t], p))
    requires forall j :: i < j <= n ==> t < |run[j].th| && Carries(run[j].th[t], p)
    ensures run[i].cuts == run[n].cuts
    decreases n - i
  {
    if i < n {
      RunInv(run, i);
      assert Next(run[i], run[i + 1]);
      SameCuts(run[i], run[i + 1], t, p);
      NobodyElsePublishes(run, i + 1, n, t, p);
    }
  }

  lemma SameCuts(s: State, s': State, t: nat, p: Proposal)
    requires Inv(s) && Next(s, s') && t < |s.th| && (s.th[t].Snapshot? || Carries(s.th[t], p))
    requires t < |s'.th| && Carries(s'.th[t], p)
    ensures s'.cuts == s.cuts
  {
    var u: nat :| StepOf(s, s', u);
    if DoPublish(s, s', u) {
      assert Running(s.th[t]) && Running(s.th[u]);
    } else {
      OnlyPublishSetsCuts(s, s', u);
    }
  }

  /** In this step thread t has a complete snapshot and computes an optimum p for it. */
  ghost predicate ComputedAt(s: State, s': State, t: nat, p: Proposal) {
    && t < |s.th| == |s'.th| && s.th[t].Snapshot?
    && |s.th[t].stats| == |s.th[t].crossings| == s.blocks
    && IsPrefixSum(p.prefix, s.th[t].stats) && p.crossings == s.th[t].crossings
    && DoOptimize(s, s', t) && s'.th[t] == LockToCompare(p)
  }

  lemma {:induction false} ProposalOrigin(run: seq<State>, n: nat, t: nat, p: Proposal) returns (m: nat)
    requires Run(run) && n < |run| && t < |run[n].th| && Carries(run[n].th[t], p)
    ensures m < n && ComputedAt(run[m], run[m + 1], t, p)
    ensures forall i :: m < i <= n ==> t < |run[i].th| && Carries(run[i].th[t], p)
  {
    assert n > 0 by { assert Init(run[0]); }
    m := n - 1;
    RunCarries(run, m, t, p);
    if Carries(run[m].th[t], p) { m := ProposalOrigin(run, n - 1, t, p); }
  }

  lemma RunCarries(run: seq<State>, m: nat, t: nat, p: Proposal)
    requires Run(run) && m + 1 < |run| && t < |run[m + 1].th| && Carries(run[m + 1].th[t], p)
    ensures t < |run[m].th| && (Carries(run[m].th[t], p) || ComputedAt(run[m], run[m + 1], t, p))
  {
    RunInv(run, m);
    assert Next(run[m], run[m + 1]);
    var u: nat :| StepOf(run[m], run[m + 1], u);
    if u == t { CarryStep(run[m], run[m + 1], t, p); }
  }

  lemma CarryStep(s: State, s': State, t: nat, p: Proposal)
    requires Fixed(s) && StepOf(s, s', t) && t < |s'.th| && Carries(s'.th[t], p)
    ensures Carries(s.th[t], p) || ComputedAt(s, s', t, p)
  {
    if DoLock(s, s', t) || DoUnlock(s, s', t) {
      CarryLocks(s.th[t], p);
    } else if DoOptimize(s, s', t) {
      assert ComputedAt(s, s', t, p);
    } else if Forwards(s, s', t) {
      ForwardsCarry(s, s', t, p);
    } else {
      OthersCarryNothing(s, s', t);
    }
  }

  lemma CarryLocks(pc: Pc, p: Proposal)
    ensures Carries(Locked(pc), p) || Carries(Unlocked(pc), p) ==> Carries(pc, p)
  {
  }

  /** The steps that pass a proposal on. */
  ghost predicate Forwards(s: State, s': State, t: nat)
    requires t < |s.th|
  {
    DoCompare(s, s', t) || DoPause(s, s', t) || AllLocked(s, s', t)
  }

  lemma ForwardsCarry(s: State, s': State, t: nat, p: Proposal)
    requires t < |s.th| == |s'.th| && Forwards(s, s', t) && Carries(s'.th[t], p)
    ensures Carries(s.th[t], p)
  {
  }

  lemma OthersCarryNothing(s: State, s': State, t: nat)
    requires t < |s.th| == |s'.th| && s.cuts != []
    requires QueryStep(s, s', t) || OneMutex(s, s', t) || RebuildStep(s, s', t)
    requires !DoOptimize(s, s', t) && !Forwards(s, s', t)
    ensures !HasProposal(s'.th[t]) && (Started(s'.th[t]) ==> ReadCell(s, s', t))
  {
    if RebuildStep(s, s', t) { RebuildCarriesNothing(s, s', t); } else { OutsidersCarryNothing(s, s', t); }
  }

  lemma OutsidersCarryNothing(s: State, s': State, t: nat)
    requires t < |s.th| == |s'.th| && (QueryStep(s, s', t) || OneMutex(s, s', t))
    ensures !HasProposal(s'.th[t]) && !Started(s'.th[t])
  {
    if QueryStep(s, s', t) { QueriesStayOut(s, s', t); } else { HoldersStayOut(s, s', t); }
    OutsideTheRebuild(s'.th[t]);
  }

  lemma OutsideTheRebuild(pc: Pc)
    requires HasSpan(pc) || pc.Idle? || pc.LockOne? || pc.HoldOne?
    ensures !HasProposal(pc) && !Started(pc)
  {
  }

  lemma RebuildCarriesNothing(s: State, s': State, t: nat)
    requires t < |s.th| == |s'.th| && s.cuts != [] && RebuildStep(s, s', t)
    requires !DoOptimize(s, s', t) && !Forwards(s, s', t)
    ensures !HasProposal(s'.th[t]) && (Started(s'.th[t]) ==> ReadCell(s, s', t))
  {
    if WritesShared(s, s', t) {
      WritersCarryNothing(s, s', t);
    } else {
      RebuildSplits(s, s', t);
      if Simple(s, s', t) { SimpleCarriesNothing(s, s', t); } else { ReadersCarryNothing(s, s', t); }
    }
  }

  /** A snapshot with at least one cell. */
  predicate Started(pc: Pc) { pc.Snapshot? && (pc.stats != [] || pc.crossings != []) }

  lemma SimpleCarriesNothing(s: State, s': State, t: nat)
    requires t < |s.th| && Simple(s, s', t)
    ensures !HasProposal(s'.th[t]) && !s'.th[t].Snapshot?
  {
  }

  lemma ReadersCarryNothing(s: State, s': State, t: nat)
    requires t < |s.th| && ReadCell(s, s', t)
    ensures !HasProposal(s'.th[t])
  {
  }

  lemma ProposersHaveNoSnapshot(s: State, s': State, t: nat)
    requires t < |s.th| && (DoOptimize(s, s', t) || Forwards(s, s', t))
    ensures !s'.th[t].Snapshot?
  {
  }

  lemma RebuildSplits(s: State, s': State, t: nat)
    requires t < |s.th| && s.cuts != [] && RebuildStep(s, s', t) && !WritesShared(s, s', t)
    ensures Simple(s, s', t) || ReadCell(s, s', t) || DoOptimize(s, s', t) || Forwards(s, s', t)
  {
  }

  lemma QueriesStayOut(s: State, s': State, t: nat)
    requires t < |s.th| == |s'.th| && QueryStep(s, s', t)
    ensures HasSpan(s'.th[t]) || s'.th[t].Idle?
  {
    if DoRecord(s, s', t) || DoCheck(s, s', t) { assert HasSpan(s'.th[t]); }
    else if DoReadEpoch(s, s', t) || DoReadLeft(s, s', t) || DoReadRight(s, s', t) { assert HasSpan(s'.th[t]); }
  }

  lemma HoldersStayOut(s: State, s': State, t: nat)
    requires t < |s.th| == |s'.th| && OneMutex(s, s', t)
    ensures s'.th[t].LockOne? || s'.th[t].HoldOne?
  {
  }

  /** The steps of a rebuild that write shared memory, but for taking the pause flag. */
  ghost predicate WritesShared(s: State, s': State, t: nat)
    requires t < |s.th| && s.cuts != []
  {
    || DoSetFlag(s, s', t) || DoClearFlag(s, s', t) || DoPublish(s, s', t) || DoBump(s, s', t) || DoRefresh(s, s', t)
    || DoReset(s, s', t) || DoUnpause(s, s', t)
  }

  lemma WritersCarryNothing(s: State, s': State, t: nat)
    requires t < |s.th| == |s'.th| && s.cuts != [] && WritesShared(s, s', t)
    ensures !HasProposal(s'.th[t]) && (s'.th[t].Snapshot? ==> s'.th[t] == Snapshot([], []))
  {
    if DoReset(s, s', t) { ResetCarriesNothing(s, s', t); }
    else if DoRefresh(s, s', t) { assert s'.th[t].Refresh? || s'.th[t].BumpToEven?; }
  }

  lemma ResetCarriesNothing(s: State, s': State, t: nat)
    requires t < |s.th| == |s'.th| && DoReset(s, s', t)
    ensures !HasProposal(s'.th[t]) && !s'.th[t].Snapshot?
  {
    assert s'.th[t].GiveUp? || s'.th[t].Reset? || s'.th[t].Published?;
  }

  /** Every cell of a snapshot was read from the counters, in order, by the thread that has it. */
  lemma {:induction false} SnapshotIsRead(run: seq<State>, n: nat, t: nat, b: nat) returns (j: nat)
    requires Run(run) && n < |run| && t < |run[n].th| && run[n].th[t].Snapshot? && b < Taken(run[n].th[t])
    ensures j < n && t < |run[j].th| && run[j].th[t].Snapshot? && Taken(run[j].th[t]) == b
    ensures CellRead(run[j], run[n].th[t], b)
    ensures forall i :: j <= i <= n ==> t < |run[i].th| && run[i].th[t].Snapshot?
  {
    assert n > 0 by { assert Init(run[0]); }
    j := n - 1;
    RunSnapshots(run, j, t);
    if b < Taken(run[j].th[t]) {
      var m := j;
      j := SnapshotIsRead(run, m, t, b);
      CellKept(run[j], run[m].th[t], run[n].th[t], b);
    }
  }

  /** How many cells have been read. */
  function Taken(pc: Pc): nat
    requires pc.Snapshot?
  {
    |pc.stats| + |pc.crossings|
  }

  /** Entry b of the snapshot is what the counters show in this state. */
  ghost predicate CellRead(s: State, pc: Pc, b: nat)
    requires pc.Snapshot? && b < Taken(pc)
  {
    if b < |pc.stats| then b < |s.stats| && pc.stats[b] == s.stats[b]
    else b - |pc.stats| < |s.crossings| && pc.crossings[b - |pc.stats|] == s.crossings[b - |pc.stats|]
  }

  /** The snapshot pc' is pc, or pc and one more cell; boundaries only follow when all blocks are there. */
  ghost predicate Extends(pc: Pc, pc': Pc)
    requires pc.Snapshot? && pc'.Snapshot?
  {
    || pc' == pc
    || (pc.crossings == [] && pc'.crossings == [] && |pc'.stats| == |pc.stats| + 1 && pc'.stats[..|pc.stats|] == pc.stats)
    || (pc'.stats == pc.stats && |pc'.crossings| == |pc.crossings| + 1 && pc'.crossings[..|pc.crossings|] == pc.crossings)
  }

  lemma CellKept(s: State, pc: Pc, pc': Pc, b: nat)
    requires pc.Snapshot? && pc'.Snapshot? && Extends(pc, pc') && b < Taken(pc) && CellRead(s, pc, b)
    ensures b < Taken(pc') && CellRead(s, pc', b)
  {
    if pc' != pc && pc'.stats == pc.stats {
      assert b >= |pc.stats| ==> pc'.crossings[..|pc.crossings|][b - |pc.stats|] == pc.crossings[b - |pc.stats|];
    } else if pc' != pc {
      assert pc'.stats[..|pc.stats|][b] == pc.stats[b];
    }
  }

  /** One step back the snapshot was the same, or lacked its last cell, which the step read. */
  lemma RunSnapshots(run: seq<State>, m: nat, t: nat)
    requires Run(run) && m + 1 < |run| && t < |run[m + 1].th| && run[m + 1].th[t].Snapshot? && Taken(run[m + 1].th[t]) > 0
    ensures t < |run[m].th| && run[m].th[t].Snapshot? && Extends(run[m].th[t], run[m + 1].th[t])
    ensures run[m + 1].th[t] == run[m].th[t]
            || (Taken(run[m + 1].th[t]) == Taken(run[m].th[t]) + 1 && CellRead(run[m], run[m + 1].th[t], Taken(run[m].th[t])))
  {
    RunInv(run, m);
    assert Next(run[m], run[m + 1]);
    var u: nat :| StepOf(run[m], run[m + 1], u);
    if u == t {
      SnapshotStep(run[m], run[m + 1], t);
      CellIsRead(run[m], run[m + 1], t);
    }
  }

  lemma CellIsRead(s: State, s': State, t: nat)
    requires Inv(s) && t < |s.th| == |s'.th| && ReadCell(s, s', t)
    ensures s'.th[t].Snapshot? && Taken(s'.th[t]) == Taken(s.th[t]) + 1 && Extends(s.th[t], s'.th[t])
    ensures CellRead(s, s'.th[t], Taken(s.th[t]))
  {
    assert PcOk(s, s.th[t]);
  }

  lemma SnapshotStep(s: State, s': State, t: nat)
    requires StepOf(s, s', t) && t < |s'.th| && Started(s'.th[t])
    ensures ReadCell(s, s', t)
  {
    if DoLock(s, s', t) || DoUnlock(s, s', t) { LocksMoveOn(s.th[t], s.k); }
    else if DoOptimize(s, s', t) || Forwards(s, s', t) { ProposersHaveNoSnapshot(s, s', t); }
    else { OthersCarryNothing(s, s', t); }
  }

  lemma LocksMoveOn(pc: Pc, k: nat)
    ensures Wants(pc, k).Some? ==> !Locked(pc).Snapshot?
    ensures Drops(pc, k).Some? ==> !Unlocked(pc).Snapshot?
  {
  }

  lemma PublishedGains(s: State, s': State, t: nat)
    requires Fixed(s) && t < |s.th| && DoPublish(s, s', t) && PcOk(s, s.th[t])
    ensures s'.cuts == s.th[t].p.cuts && Cheapest(s'.cuts, s.k, s.blocks, PriceBy(s.th[t].p))
    ensures ValidCuts(s.cuts, s.k, s.blocks) && PriceOf(s'.cuts, PriceBy(s.th[t].p)) < PriceOf(s.cuts, PriceBy(s.th[t].p))
    ensures Gains(PriceOf(s.cuts, PriceBy(s.th[t].p)), PriceOf(s'.cuts, PriceBy(s.th[t].p)), s.minGain)
  {
    var p := s.th[t].p;
    NoCostBelowZero(p.cuts, p);
    ScaledUp(PriceOf(p.cuts, PriceBy(p)), s.minGain);
  }

  lemma {:induction false} NoCostBelowZero(c: seq<nat>, p: Proposal)
    ensures PriceOf(c, PriceBy(p)) >= 0.0
  {
    if |c| > 1 { NoCostBelowZero(c[..|c| - 1], p); }
  }
}
