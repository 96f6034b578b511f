/**
 Epoch-based reclamation (DEBRA) as a state machine.

 A step is one access to shared memory by one thread.  Three bags per thread rotate when the thread
 sees a new epoch; a rotation may free any part of the bag it moves to.  `opId`, `announcedAt` and the
 stamps carried by retired objects are history.
 */
module DebraModel {
  const EPOCH_INCREMENT := 2
  const NUMBER_OF_EPOCH_BAGS := 3

  function BitsEpoch(ann: nat): nat { ann - ann % EPOCH_INCREMENT }

  predicate Quiescent(ann: nat) { ann % 2 == 1 }

  function WithQuiescent(ann: nat): nat { if Quiescent(ann) then ann else ann + 1 }

  /** An object in a bag: when it was retired, and which operations were then running. */
  datatype Retired = Retired(obj: nat, epochAt: nat, running: set<(nat, nat)>)

  datatype Pc =
    | Outside                              // between endOp and startOp
    | Rotate(readEpoch: nat)               // startOp has read an epoch other than the last
    | Announce(readEpoch: nat)             // about to store the announcement
    | Count(readEpoch: nat)                // about to count this operation towards the next scan
    | Scan(readEpoch: nat)                 // about to read one other announcement
    | Advance(readEpoch: nat)              // all threads checked: about to advance the epoch
    | Inside                               // startOp has returned

  datatype Thread = Thread(
    pc: Pc,
    announced: nat,                        // announcedEpoch, shared
    local: nat,                            // localvar_announcedEpoch
    bags: seq<set<Retired>>,
    index: nat,
    checked: nat,
    opsSinceRead: nat,
    opId: nat,                             // history: number of announcements so far
    announcedAt: nat)                      // history: the epoch at the last announcement

  /** `minOps` is MIN_OPS_BEFORE_READ, which the build chooses. */
  datatype State = State(epoch: nat, minOps: nat, th: seq<Thread>)

  /** Thread t has announced operation id and has not ended it. */
  predicate Running(s: State, t: nat, id: nat) {
    t < |s.th| && !Quiescent(s.th[t].announced) && s.th[t].opId == id
  }

  function RunningOps(s: State): set<(nat, nat)> {
    set t: nat | t < |s.th| && !Quiescent(s.th[t].announced) :: (t, s.th[t].opId)
  }

  ghost predicate Update(s: State, s': State, t: nat, T: Thread) {
    t < |s.th| && s' == s.(th := s.th[t := T])
  }

  /** startOp up to the comparison of the epoch read with the last one announced. */
  ghost predicate ReadEpoch(s: State, s': State, t: nat) {
    && t < |s.th| && s.th[t].pc.Outside?
    && var T := s.th[t];
       Update(s, s', t, if s.epoch != T.local then T.(local := s.epoch, checked := 0, pc := Rotate(s.epoch))
                        else T.(local := s.epoch, pc := Announce(s.epoch)))
  }

  function NextIndex(T: Thread): nat { (T.index + 1) % NUMBER_OF_EPOCH_BAGS }

  /** rotateEpochBags: what is in `freed` leaves the bag that becomes the current one. */
  ghost predicate RotateEpochBags(s: State, s': State, t: nat, freed: set<Retired>) {
    && t < |s.th| && s.th[t].pc.Rotate? && NextIndex(s.th[t]) < |s.th[t].bags|
    && var T := s.th[t];
       var next := NextIndex(T);
       && freed <= T.bags[next]
       && Update(s, s', t, T.(bags := T.bags[next := T.bags[next] - freed], index := next,
                              pc := Announce(T.pc.readEpoch)))
  }

  ghost predicate DoAnnounce(s: State, s': State, t: nat) {
    && t < |s.th| && s.th[t].pc.Announce?
    && var T := s.th[t];
       Update(s, s', t, T.(announced := T.pc.readEpoch, opId := T.opId + 1, announcedAt := s.epoch,
                           pc := Count(T.pc.readEpoch)))
  }

  ghost predicate DoCount(s: State, s': State, t: nat) {
    && t < |s.th| && s.th[t].pc.Count?
    && var T := s.th[t];
       Update(s, s', t, if T.opsSinceRead + 1 == s.minOps
                        then T.(opsSinceRead := 0, pc := Scan(T.pc.readEpoch))
                        else T.(opsSinceRead := T.opsSinceRead + 1, pc := Inside))
  }

  /** A read-only operation neither counts nor scans. */
  ghost predicate SkipCount(s: State, s': State, t: nat) {
    t < |s.th| && s.th[t].pc.Count? && Update(s, s', t, s.th[t].(pc := Inside))
  }

  ghost predicate DoScan(s: State, s': State, t: nat) {
    && t < |s.th| && s.th[t].pc.Scan? && s.th[t].checked < |s.th|
    && var T := s.th[t];
       var otherAnnounce := s.th[T.checked].announced;
       Update(s, s', t, if BitsEpoch(otherAnnounce) == T.pc.readEpoch || Quiescent(otherAnnounce)
                        then T.(checked := T.checked + 1,
                                pc := if T.checked + 1 >= |s.th| then Advance(T.pc.readEpoch) else Inside)
                        else T.(pc := Inside))
  }

  ghost predicate DoAdvance(s: State, s': State, t: nat) {
    && t < |s.th| && s.th[t].pc.Advance?
    && var T := s.th[t];
       s' == s.(epoch := if s.epoch == T.pc.readEpoch then s.epoch + EPOCH_INCREMENT else s.epoch,
                th := s.th[t := T.(pc := Inside)])
  }

  ghost predicate EndOp(s: State, s': State, t: nat) {
    && t < |s.th| && s.th[t].pc.Inside?
    && Update(s, s', t, s.th[t].(announced := WithQuiescent(s.th[t].local), pc := Outside))
  }

  ghost predicate Retire(s: State, s': State, t: nat, obj: nat) {
    && t < |s.th| && (s.th[t].pc.Inside? || s.th[t].pc.Outside?) && s.th[t].index < |s.th[t].bags|
    && var T := s.th[t];
       Update(s, s', t, T.(bags := T.bags[T.index := T.bags[T.index] + {Retired(obj, s.epoch, RunningOps(s))}]))
  }

  /** The steps that neither advance the epoch nor touch a bag. */
  ghost predicate Plain(s: State, s': State, t: nat) {
    || ReadEpoch(s, s', t) || DoAnnounce(s, s', t) || DoCount(s, s', t) || SkipCount(s, s', t)
    || DoScan(s, s', t) || EndOp(s, s', t)
  }

  ghost predicate Next(s: State, s': State) {
    || (exists t: nat :: Plain(s, s', t))
    || (exists t: nat, freed :: RotateEpochBags(s, s', t, freed))
    || (exists t: nat :: DoAdvance(s, s', t))
    || (exists t: nat, obj: nat :: Retire(s, s', t, obj))
  }

  const INITIAL := Thread(Outside, 1, 1, [{}, {}, {}], 0, 0, 0, 0, 0)

  ghost predicate Init(s: State) {
    s.epoch == 0 && forall t :: 0 <= t < |s.th| ==> s.th[t] == INITIAL
  }

  ghost predicate Run(run: seq<State>) {
    && |run| > 0 && Init(run[0])
    && forall n {:trigger Next(run[n], run[n + 1])} :: 0 <= n < |run| - 1 ==> Next(run[n], run[n + 1])
  }
}

/** The grace period of DEBRA. */
module DebraProof {
  import opened DebraModel

  /** The epoch that thread t works with in its current operation, once startOp has read it. */
  ghost predicate PcOk(s: State, t: nat)
    requires t < |s.th|
  {
    var T := s.th[t];
    && (T.pc.Rotate? || T.pc.Announce? || T.pc.Count? || T.pc.Scan? || T.pc.Advance? ==> T.local == T.pc.readEpoch)
    && (Quiescent(T.announced) <==> T.pc.Outside? || T.pc.Rotate? || T.pc.Announce?)
    && (T.local == 1 ==> T.pc.Outside?)
    && (T.pc.Rotate? || T.pc.Announce? || T.pc.Count? || T.pc.Scan? ==> T.checked < |s.th|)
    && (T.pc.Advance? ==> T.checked >= |s.th|)
    && (T.pc.Inside? || T.pc.Outside? ==> T.checked < |s.th| || T.local != s.epoch)
  }

  ghost predicate EpochsOk(s: State, t: nat)
    requires t < |s.th|
  {
    var T := s.th[t];
    && (T.local % 2 == 0 || T.local == 1)
    && (T.local == 1 || T.local <= s.epoch)
    && (!Quiescent(T.announced) ==> T.announced == T.local <= T.announcedAt <= s.epoch <= T.announcedAt + EPOCH_INCREMENT)
  }

  /** Thread w has checked u in the current epoch: u is not in an operation from before it. */
  ghost predicate CheckedOk(s: State, w: nat, u: nat)
    requires w < |s.th| && u < |s.th|
  {
    s.th[w].local == s.epoch && u < s.th[w].checked && !Quiescent(s.th[u].announced) ==>
      s.th[u].announcedAt == s.epoch
  }

  /** How many rotations ago bag j of T was the current one. */
  function Age(T: Thread, j: nat): nat
    requires T.index < 3 && j < 3
  {
    (T.index + 3 - j) % 3
  }

  /** The epoch at a retirement lags behind the last epoch read by one increment per rotation but the first. */
  ghost predicate BagOk(s: State, t: nat, j: nat, r: Retired)
    requires t < |s.th| && s.th[t].index < 3 && j < 3
  {
    var T := s.th[t];
    var age := if T.pc.Rotate? then Age(T, j) + 1 else Age(T, j);
    && r.epochAt <= s.epoch
    && (age > 0 ==> T.local % 2 == 0 && T.local >= r.epochAt + EPOCH_INCREMENT * (age - 1))
    && (forall p <- r.running :: p.0 < |s.th| && (Running(s, p.0, p.1) ==> s.th[p.0].announcedAt <= r.epochAt)
                                 && p.1 <= s.th[p.0].opId)
  }

  ghost predicate BagsOk(s: State, t: nat)
    requires t < |s.th|
  {
    && s.th[t].index < 3 && |s.th[t].bags| == 3
    && forall j: nat, r :: j < 3 && r in s.th[t].bags[j] ==> BagOk(s, t, j, r)
  }

  ghost predicate Inv(s: State) {
    && s.epoch % 2 == 0
    && (forall t: nat {:trigger PcOk(s, t)} :: t < |s.th| ==> PcOk(s, t))
    && (forall t: nat {:trigger EpochsOk(s, t)} :: t < |s.th| ==> EpochsOk(s, t))
    && (forall w: nat, u: nat {:trigger CheckedOk(s, w, u)} :: w < |s.th| && u < |s.th| ==> CheckedOk(s, w, u))
    && (forall t: nat {:trigger BagsOk(s, t)} :: t < |s.th| ==> BagsOk(s, t))
  }

  // ----- every step keeps the invariant -----

  lemma PlainKeepsThreads(s: State, s': State, t: nat)
    requires Inv(s) && Plain(s, s', t)
    ensures forall u: nat :: u < |s'.th| ==> PcOk(s', u) && EpochsOk(s', u)
  {
    forall u: nat | u < |s'.th| ensures PcOk(s', u) && EpochsOk(s', u) { assert PcOk(s, u) && EpochsOk(s, u); }
  }

  lemma PlainKeepsChecked(s: State, s': State, t: nat)
    requires Inv(s) && Plain(s, s', t)
    ensures forall w: nat, u: nat :: w < |s'.th| && u < |s'.th| ==> CheckedOk(s', w, u)
  {
    assert PcOk(s, t);
    forall w: nat, u: nat | w < |s'.th| && u < |s'.th| ensures CheckedOk(s', w, u) {
      assert CheckedOk(s, w, u) && EpochsOk(s, u) && EpochsOk(s, w) && PcOk(s, u);
    }
  }

  lemma PlainKeepsBags(s: State, s': State, t: nat)
    requires Inv(s) && Plain(s, s', t)
    ensures forall u: nat :: u < |s'.th| ==> BagsOk(s', u)
  {
    forall u: nat | u < |s'.th| ensures BagsOk(s', u) {
      assert BagsOk(s, u) && EpochsOk(s, u);
      forall j: nat, r | j < 3 && r in s'.th[u].bags[j] ensures BagOk(s', u, j, r) {
        assert BagOk(s, u, j, r);
        forall p <- r.running ensures p.0 < |s'.th| && (Running(s', p.0, p.1) ==> s'.th[p.0].announcedAt <= r.epochAt)
                                      && p.1 <= s'.th[p.0].opId { }
      }
    }
  }

  lemma RotateKeepsInv(s: State, s': State, t: nat, freed: set<Retired>)
    requires Inv(s) && RotateEpochBags(s, s', t, freed)
    ensures Inv(s')
  {
    forall u: nat | u < |s'.th| ensures PcOk(s', u) && EpochsOk(s', u) { assert PcOk(s, u) && EpochsOk(s, u); }
    forall w: nat, u: nat | w < |s'.th| && u < |s'.th| ensures CheckedOk(s', w, u) { assert CheckedOk(s, w, u); }
    assert BagsOk(s, t);
    forall u: nat | u < |s'.th| ensures BagsOk(s', u) {
      assert BagsOk(s, u) && EpochsOk(s, u);
      forall j: nat, r | j < 3 && r in s'.th[u].bags[j] ensures BagOk(s', u, j, r) {
        assert BagOk(s, u, j, r);
        forall p <- r.running ensures p.0 < |s'.th| && (Running(s', p.0, p.1) ==> s'.th[p.0].announcedAt <= r.epochAt)
                                      && p.1 <= s'.th[p.0].opId { }
      }
    }
  }

  /** The epoch advances only when no thread is left in an operation announced before it. */
  lemma AdvanceKeepsInv(s: State, s': State, t: nat)
    requires Inv(s) && DoAdvance(s, s', t)
    ensures Inv(s')
  {
    assert PcOk(s, t) && EpochsOk(s, t);
    forall u: nat | u < |s'.th| ensures PcOk(s', u) && EpochsOk(s', u) {
      assert PcOk(s, u) && EpochsOk(s, u) && CheckedOk(s, t, u);
    }
    forall w: nat, u: nat | w < |s'.th| && u < |s'.th| ensures CheckedOk(s', w, u) {
      assert CheckedOk(s, w, u) && EpochsOk(s, w);
    }
    forall u: nat | u < |s'.th| ensures BagsOk(s', u) {
      assert BagsOk(s, u);
      forall j: nat, r | j < 3 && r in s'.th[u].bags[j] ensures BagOk(s', u, j, r) {
        assert BagOk(s, u, j, r);
        forall p <- r.running ensures p.0 < |s'.th| && (Running(s', p.0, p.1) ==> s'.th[p.0].announcedAt <= r.epochAt)
                                      && p.1 <= s'.th[p.0].opId { }
      }
    }
  }

  lemma RetireKeepsInv(s: State, s': State, t: nat, obj: nat)
    requires Inv(s) && Retire(s, s', t, obj)
    ensures Inv(s')
  {
    forall u: nat | u < |s'.th| ensures PcOk(s', u) && EpochsOk(s', u) { assert PcOk(s, u) && EpochsOk(s, u); }
    forall w: nat, u: nat | w < |s'.th| && u < |s'.th| ensures CheckedOk(s', w, u) { assert CheckedOk(s, w, u); }
    forall u: nat | u < |s'.th| ensures BagsOk(s', u) {
      assert BagsOk(s, u);
      forall j: nat, r | j < 3 && r in s'.th[u].bags[j] ensures BagOk(s', u, j, r) {
        if r in s.th[u].bags[j] { assert BagOk(s, u, j, r); }
        forall p <- r.running ensures p.0 < |s'.th| && (Running(s', p.0, p.1) ==> s'.th[p.0].announcedAt <= r.epochAt)
                                      && p.1 <= s'.th[p.0].opId {
          if p.0 < |s.th| { assert EpochsOk(s, p.0); }
        }
      }
    }
  }

  lemma NextKeepsInv(s: State, s': State)
    requires Inv(s) && Next(s, s')
    ensures Inv(s') && s.epoch <= s'.epoch && |s'.th| == |s.th|
  {
    if t: nat, f :| RotateEpochBags(s, s', t, f) {
      RotateKeepsInv(s, s', t, f);
    } else if t: nat :| DoAdvance(s, s', t) {
      AdvanceKeepsInv(s, s', t);
    } else if t: nat, o: nat :| Retire(s, s', t, o) {
      RetireKeepsInv(s, s', t, o);
    } else {
      var t: nat :| Plain(s, s', t);
      PlainKeepsThreads(s, s', t);
      PlainKeepsChecked(s, s', t);
      PlainKeepsBags(s, s', t);
    }
  }

  lemma {:induction false} RunInv(run: seq<State>, n: nat)
    requires Run(run) && n < |run|
    ensures Inv(run[n])
  {
    if n == 0 {
      assert Init(run[0]);
    } else {
      var m := n - 1;
      RunInv(run, m);
      assert Next(run[m], run[m + 1]);
      NextKeepsInv(run[m], run[n]);
    }
  }

  lemma RunStep(run: seq<State>, n: nat)
    requires Run(run) && n + 1 < |run|
    ensures Inv(run[n]) && Inv(run[n + 1]) && Next(run[n], run[n + 1])
    ensures run[n].epoch <= run[n + 1].epoch && |run[n + 1].th| == |run[n].th|
  {
    RunInv(run, n);
    RunInv(run, n + 1);
    assert Next(run[n], run[n + 1]);
    NextKeepsInv(run[n], run[n + 1]);
  }

  // ----- the epoch against a running operation -----

  /** One step further back: the same operation was running, or it has just been announced. */
  lemma RunningStep(s: State, s': State, t: nat, id: nat)
    requires Inv(s) && Next(s, s') && t < |s.th|
    ensures s.th[t].opId <= s'.th[t].opId
    ensures Running(s', t, id) && id <= s.th[t].opId ==> Running(s, t, id) && s'.th[t].announcedAt == s.th[t].announcedAt
  {
    assert PcOk(s, t);
  }

  lemma {:induction false} RunningBetween(run: seq<State>, m: nat, n: nat, t: nat, id: nat)
    requires Run(run) && m <= n < |run| && t < |run[m].th| && id <= run[m].th[t].opId && Running(run[n], t, id)
    ensures Running(run[m], t, id) && run[n].th[t].announcedAt == run[m].th[t].announcedAt
    ensures run[m].epoch <= run[n].epoch
    decreases n - m
  {
    if m < n {
      OpIdGrows(run, m, n - 1, t);
      RunStep(run, n - 1);
      RunningStep(run[n - 1], run[n], t, id);
      RunningBetween(run, m, n - 1, t, id);
    }
  }

  lemma {:induction false} OpIdGrows(run: seq<State>, m: nat, n: nat, t: nat)
    requires Run(run) && m <= n < |run| && t < |run[m].th|
    ensures |run[n].th| == |run[m].th| && run[m].th[t].opId <= run[n].th[t].opId
    decreases n - m
  {
    if m < n {
      OpIdGrows(run, m, n - 1, t);
      RunStep(run, n - 1);
      RunningStep(run[n - 1], run[n], t, 0);
    }
  }

  /** While one operation of t runs, the epoch advances at most once, however stale its announcement. */
  lemma AtMostOneAdvance(run: seq<State>, m: nat, n: nat, t: nat, id: nat)
    requires Run(run) && m <= n < |run| && Running(run[m], t, id) && Running(run[n], t, id)
    ensures run[n].epoch <= run[m].epoch + EPOCH_INCREMENT
  {
    RunningBetween(run, m, n, t, id);
    RunInv(run, m);
    RunInv(run, n);
    assert EpochsOk(run[m], t) && EpochsOk(run[n], t);
  }

  /** The scan never reads past the announcements of the threads there are. */
  lemma ScanInRange(run: seq<State>, n: nat, t: nat)
    requires Run(run) && n < |run| && t < |run[n].th| && run[n].th[t].pc.Scan?
    ensures run[n].th[t].checked < |run[n].th|
  {
    RunInv(run, n);
    assert PcOk(run[n], t);
  }

  // ----- the grace period -----

  /** What leaves a bag was retired before every operation now running. */
  lemma FreedIsSafe(s: State, s': State, t: nat, freed: set<Retired>, r: Retired, u: nat, id: nat)
    requires Inv(s) && RotateEpochBags(s, s', t, freed) && r in freed && (u, id) in r.running
    ensures !Running(s, u, id)
  {
    assert BagsOk(s, t) && EpochsOk(s, t) && PcOk(s, t) && EpochsOk(s, u);
    assert BagOk(s, t, NextIndex(s.th[t]), r);
  }

  /** Every object in a bag got there by a retirement, stamped with the operations then running. */
  ghost predicate RetiredAt(run: seq<State>, m: nat, t: nat, r: Retired) {
    m + 1 < |run| && Retire(run[m], run[m + 1], t, r.obj) && r.epochAt == run[m].epoch && r.running == RunningOps(run[m])
  }

  lemma {:induction false} BagOrigin(run: seq<State>, n: nat, t: nat, j: nat, r: Retired) returns (m: nat)
    requires Run(run) && n < |run| && t < |run[n].th| && j < |run[n].th[t].bags| && r in run[n].th[t].bags[j]
    ensures m < n && RetiredAt(run, m, t, r)
  {
    assert n > 0 by { assert Init(run[0]); }
    var s, s' := run[n - 1], run[n];
    RunStep(run, n - 1);
    BagStep(s, s', t, j, r);
    if j < |s.th[t].bags| && r in s.th[t].bags[j] {
      m := BagOrigin(run, n - 1, t, j, r);
    } else {
      m := n - 1;
    }
  }

  lemma BagStep(s: State, s': State, t: nat, j: nat, r: Retired)
    requires Inv(s) && Next(s, s') && t < |s'.th| && j < |s'.th[t].bags| && r in s'.th[t].bags[j]
    ensures t < |s.th|
    ensures (j < |s.th[t].bags| && r in s.th[t].bags[j])
            || (Retire(s, s', t, r.obj) && r.epochAt == s.epoch && r.running == RunningOps(s))
  {
    if u: nat, o: nat :| Retire(s, s', u, o) {
      if u == t && !(j < |s.th[t].bags| && r in s.th[t].bags[j]) { assert o == r.obj; }
    }
  }

  /** The grace period: when an object leaves a bag at step n, it was retired at some earlier step m, and
      no operation that was running then is still running, now or at any later time. */
  lemma GracePeriod(run: seq<State>, n: nat, t: nat, freed: set<Retired>, r: Retired) returns (m: nat)
    requires Run(run) && n + 1 < |run| && RotateEpochBags(run[n], run[n + 1], t, freed) && r in freed
    ensures m < n && RetiredAt(run, m, t, r)
    ensures forall u: nat, id: nat, l: nat :: Running(run[m], u, id) && n <= l < |run| ==> !Running(run[l], u, id)
  {
    m := BagOrigin(run, n, t, NextIndex(run[n].th[t]), r);
    RunInv(run, n);
    forall u: nat, id: nat, l: nat | Running(run[m], u, id) && n <= l < |run| ensures !Running(run[l], u, id) {
      assert (u, id) in RunningOps(run[m]);
      FreedIsSafe(run[n], run[n + 1], t, freed, r, u, id);
      OpIdGrows(run, m, n, u);
      if Running(run[l], u, id) { RunningBetween(run, n, l, u, id); }
    }
  }
}
