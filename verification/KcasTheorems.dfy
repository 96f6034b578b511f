/** What the KCAS machine promises its callers, over every run. */
module KcasTheorems {
  import opened KcasModel
  import opened KcasInvariant
  import opened KcasSteps

  // ----- the atomic operation -----

  /** All expected values are there. */
  ghost predicate Matches(A: seq<nat>, es: seq<KEntry>) {
    forall i :: 0 <= i < |es| ==> es[i].addr < |A| && A[es[i].addr] == es[i].oldval
  }

  /** Memory with the new values of all entries written at once. */
  function Written(A: seq<nat>, es: seq<KEntry>): (A': seq<nat>)
    ensures |A'| == |A|
  {
    seq(|A|, (a: nat) requires a < |A| => if HasAddr(es, a) then es[IndexOf(es, a)].newval else A[a])
  }

  /** Operation k goes from undecided to succeeded in this step. */
  ghost predicate Commits(g: Shared, g': Shared, k: Tag) {
    && k in g.ops && g.ops[k].status.Undecided?
    && k in g'.ops && g'.ops[k].status.Succeeded?
  }

  /** One step of the machine as seen on abstract memory. */
  ghost predicate StepEffect(g: Shared, g': Shared) {
    && (forall k :: k in g'.ops && k !in g.ops ==> g'.ops[k].status.Undecided?)
    && (forall k, l :: Commits(g, g', k) && Commits(g, g', l) ==> k == l)
    && (forall k :: Commits(g, g', k) ==>
          Matches(Abs(g), g.ops[k].entries) && Abs(g') == Written(Abs(g), g.ops[k].entries))
    && ((forall k :: !Commits(g, g', k)) ==> Abs(g') == Abs(g))
  }

  lemma IndexOfEntry(es: seq<KEntry>, size: nat, i: nat)
    requires ProperEntries(es, size) && i < |es|
    ensures IndexOf(es, es[i].addr) == i
  {
  }

  // ----- steps that leave abstract memory alone -----

  lemma NothingCommits(g: Shared, g': Shared)
    requires |g'.mem| == |g.mem|
    requires forall a: nat :: a < |g.mem| ==> AbsWord(g', g'.mem[a], a) == AbsWord(g, g.mem[a], a)
    requires forall k :: k in g'.ops && k !in g.ops ==> g'.ops[k].status.Undecided?
    requires forall k :: k in g'.ops && k in g.ops && g.ops[k].status.Undecided? ==> !g'.ops[k].status.Succeeded?
    ensures StepEffect(g, g')
  {
    assert Abs(g') == Abs(g);
  }

  lemma ExecuteEffect(g: Shared, T: Thread, t: nat, g': Shared, T': Thread)
    requires Before(g, t, T) && Execute(g, T, t, g', T')
    ensures StepEffect(g, g')
  {
    var k0 := Tag(t, g.kd[t].seqno + 1);
    assert k0 !in g.ops by { assert k0 in g.ops ==> OpOk(g, k0); }
    forall a: nat | a < |g.mem| ensures AbsWord(g', g'.mem[a], a) == AbsWord(g, g.mem[a], a) {
      assert WordOk(g, a);
    }
    NothingCommits(g, g');
  }

  lemma PublishEffect(g: Shared, T: Thread, t: nat, g': Shared, T': Thread)
    requires Before(g, t, T) && PublishRdcss(g, T, t, g', T')
    ensures StepEffect(g, g')
  {
    var x := Tag(t, g.rd[t].seqno + 1);
    assert x !in g.rops by { assert x in g.rops ==> RopOk(g, x); }
    forall a: nat | a < |g.mem| ensures AbsWord(g', g'.mem[a], a) == AbsWord(g, g.mem[a], a) {
      assert WordOk(g, a);
    }
    NothingCommits(g, g');
  }

  lemma TryCasEffect(g: Shared, T: Thread, t: nat, g': Shared, T': Thread)
    requires Before(g, t, T) && DoTryCas(g, T, t, g', T')
    ensures StepEffect(g, g')
  {
    var f := Top(T);
    assert FrameOk(g, f);
    var x := Own(g, t);
    assert RopOk(g, x);
    forall a: nat | a < |g.mem| ensures AbsWord(g', g'.mem[a], a) == AbsWord(g, g.mem[a], a) {
      assert WordOk(g, a);
    }
    NothingCommits(g, g');
  }

  lemma CleanEffect(g: Shared, T: Thread, t: nat, g': Shared, T': Thread)
    requires Before(g, t, T) && DoClean(g, T, g', T')
    ensures StepEffect(g, g')
  {
    var f := Top(T);
    assert FrameOk(g, f);
    if g' != g {
      var e := f.entries[f.pc.j];
      assert OpOk(g, f.tag);
      IndexOfEntry(f.entries, |g.mem|, f.pc.j);
      assert AbsWord(g', g'.mem[e.addr], e.addr) == AbsWord(g, g.mem[e.addr], e.addr);
    }
    NothingCommits(g, g');
  }

  lemma FinishEffect(g: Shared, T: Thread, t: nat, g': Shared, T': Thread)
    requires Before(g, t, T) && DoRFinish(g, T, g', T')
    ensures StepEffect(g, g')
  {
    var b := T.slot.body;
    assert RopOk(g, T.slot.tag) && OpOk(g, b.old1);
    IndexOfEntry(g.ops[b.old1].entries, |g.mem|, g.rops[T.slot.tag].index);
    NothingCommits(g, g');
  }

  // ----- the status step -----

  /** When an operation succeeds, all its addresses hold its tag. */
  lemma DecideEffect(g: Shared, f: Frame, ns: Status, g': Shared)
    requires Good(g) && Decides(g, f, ns, g')
    ensures StepEffect(g, g')
  {
    var k := f.tag;
    var es := g.ops[k].entries;
    assert OpOk(g, k);
    forall a: nat | a < |g.mem| && g.mem[a] != KcasTag(k)
      ensures AbsWord(g', g'.mem[a], a) == AbsWord(g, g.mem[a], a)
    {
    }
    if ns.Succeeded? {
      assert Commits(g, g', k);
      forall i | 0 <= i < |es| ensures Abs(g)[es[i].addr] == es[i].oldval {
        assert Holds(g, k, i);
        IndexOfEntry(es, |g.mem|, i);
      }
      assert Abs(g') == Written(Abs(g), es) by {
        forall a: nat | a < |g.mem| ensures Abs(g')[a] == Written(Abs(g), es)[a] {
          assert WordOk(g, a);
          if HasAddr(es, a) { assert Holds(g, k, IndexOf(es, a)); }
        }
      }
    } else {
      forall a: nat | a < |g.mem| ensures AbsWord(g', g'.mem[a], a) == AbsWord(g, g.mem[a], a) { }
      NothingCommits(g, g');
    }
  }

  lemma ThreadStepEffect(g: Shared, T: Thread, t: nat, g': Shared, T': Thread)
    requires Before(g, t, T) && ThreadStep(g, T, t, g', T')
    ensures StepEffect(g, g')
  {
    if Execute(g, T, t, g', T') { ExecuteEffect(g, T, t, g', T'); }
    else if PublishRdcss(g, T, t, g', T') { PublishEffect(g, T, t, g', T'); }
    else if DoTryCas(g, T, t, g', T') { TryCasEffect(g, T, t, g', T'); }
    else if DoClean(g, T, g', T') { CleanEffect(g, T, t, g', T'); }
    else if DoRFinish(g, T, g', T') { FinishEffect(g, T, t, g', T'); }
    else if DoDecideCas(g, T, g', T') && g' != g {
      assert FrameOk(g, Top(T));
      DecideEffect(g, Top(T), Top(T).pc.ns, g');
    } else {
      NothingCommits(g, g');
    }
  }

  /** Abstract memory changes only when an operation succeeds, and then by all of its entries at once. */
  lemma StepRefines(s: State, s': State)
    requires Inv(s) && Next(s, s')
    ensures StepEffect(s.g, s'.g)
  {
    var t: nat :| StepOf(s, s', t);
    ThreadStepEffect(s.g, s.th[t], t, s'.g, s'.th[t]);
  }

  // ----- whole runs -----

  /** Memory after the operations of hist, one after the other. */
  function Effect(ops: map<Tag, Op>, A: seq<nat>, hist: seq<Tag>): seq<nat>
    requires forall k <- hist :: k in ops
  {
    if hist == [] then A
    else Written(Effect(ops, A, hist[..|hist| - 1]), ops[hist[|hist| - 1]].entries)
  }

  /** Every operation of hist found its expected values when its turn came. */
  ghost predicate AllMatch(ops: map<Tag, Op>, A: seq<nat>, hist: seq<Tag>)
    requires forall k <- hist :: k in ops
  {
    hist != [] ==>
      && AllMatch(ops, A, hist[..|hist| - 1])
      && Matches(Effect(ops, A, hist[..|hist| - 1]), ops[hist[|hist| - 1]].entries)
  }

  /** hist lists each succeeded operation exactly once. */
  ghost predicate ListsSucceeded(ops: map<Tag, Op>, hist: seq<Tag>) {
    && (forall k <- hist :: k in ops)
    && (forall k :: k in ops && ops[k].status.Succeeded? <==> k in hist)
    && (forall i, j :: 0 <= i < j < |hist| ==> hist[i] != hist[j])
  }

  lemma RunStep(run: seq<State>, n: nat)
    requires Run(run) && n + 1 < |run|
    ensures Rely(run[n].g, run[n + 1].g) && StepEffect(run[n].g, run[n + 1].g)
  {
    RunInv(run, n);
    assert Next(run[n], run[n + 1]);
    NextKeepsInv(run[n], run[n + 1]);
    StepRefines(run[n], run[n + 1]);
  }

  lemma {:induction false} EffectEvolves(g: Shared, g': Shared, A: seq<nat>, hist: seq<Tag>)
    requires Rely(g, g') && forall k <- hist :: k in g.ops
    ensures forall k <- hist :: k in g'.ops
    ensures Effect(g'.ops, A, hist) == Effect(g.ops, A, hist)
    ensures AllMatch(g.ops, A, hist) ==> AllMatch(g'.ops, A, hist)
  {
    forall k | k in hist ensures k in g'.ops && g'.ops[k].entries == g.ops[k].entries { assert OpEvolves(g, g', k); }
    if hist != [] {
      assert hist[|hist| - 1] in hist;
      EffectEvolves(g, g', A, hist[..|hist| - 1]);
    }
  }

  /** The operation that succeeds in this step, if any. */
  ghost function Committing(g: Shared, g': Shared): seq<Tag> {
    if k :| Commits(g, g', k) then [k] else []
  }

  /** The operations that succeeded up to state n, in the order of their status steps. */
  ghost function CommitOrder(run: seq<State>, n: nat): seq<Tag>
    requires n < |run|
  {
    if n == 0 then [] else CommitOrder(run, n - 1) + Committing(run[n - 1].g, run[n].g)
  }

  /** Abstract memory is A after the operations of hist, which are those that succeeded. */
  ghost predicate Refines(g: Shared, A: seq<nat>, hist: seq<Tag>) {
    ListsSucceeded(g.ops, hist) && AllMatch(g.ops, A, hist) && Abs(g) == Effect(g.ops, A, hist)
  }

  lemma {:induction false} RefinesAt(run: seq<State>, n: nat, A: seq<nat>)
    requires Run(run) && n < |run| && A == Abs(run[0].g)
    ensures Refines(run[n].g, A, CommitOrder(run, n))
  {
    if n == 0 {
      NothingSucceeded(run, A);
    } else {
      var m := n - 1;
      RefinesAt(run, m, A);
      RefinesNext(run, m, A);
    }
  }

  lemma RefinesNext(run: seq<State>, n: nat, A: seq<nat>)
    requires Run(run) && n + 1 < |run| && Refines(run[n].g, A, CommitOrder(run, n))
    ensures Refines(run[n + 1].g, A, CommitOrder(run, n + 1))
  {
    RunStep(run, n);
    OrderStep(run[n].g, run[n + 1].g, A, CommitOrder(run, n));
  }

  /** Refinement: in every run, whatever helps whatever and however often descriptors are reused,
      abstract memory is the initial memory after the succeeded operations, each applied once and
      atomically, in the order of their status steps, each having found its expected values.  The order
      is only ever added to. */
  lemma RunRefines(run: seq<State>, n: nat)
    requires Run(run) && n < |run|
    ensures Refines(run[n].g, Abs(run[0].g), CommitOrder(run, n))
    ensures forall m: nat :: m <= n ==> CommitOrder(run, m) <= CommitOrder(run, n)
  {
    RefinesAt(run, n, Abs(run[0].g));
    forall m: nat | m <= n ensures CommitOrder(run, m) <= CommitOrder(run, n) { OrderGrows(run, m, n); }
  }

  lemma NothingSucceeded(run: seq<State>, A: seq<nat>)
    requires Run(run) && A == Abs(run[0].g)
    ensures Refines(run[0].g, A, CommitOrder(run, 0))
  {
  }

  lemma OrderStep(g: Shared, g': Shared, A: seq<nat>, before: seq<Tag>)
    requires Rely(g, g') && StepEffect(g, g') && Refines(g, A, before)
    ensures Refines(g', A, before + Committing(g, g'))
  {
    EffectEvolves(g, g', A, before);
    SucceededAfter(g, g', before);
    if Committing(g, g') != [] {
      var k := Committing(g, g')[0];
      assert Commits(g, g', k) && OpEvolves(g, g', k);
      Appended(g'.ops, A, before, k);
    } else {
      assert before + Committing(g, g') == before;
    }
  }

  lemma Appended(ops: map<Tag, Op>, A: seq<nat>, hist: seq<Tag>, k: Tag)
    requires k in ops && forall l <- hist :: l in ops
    ensures Effect(ops, A, hist + [k]) == Written(Effect(ops, A, hist), ops[k].entries)
    ensures AllMatch(ops, A, hist + [k]) <==> AllMatch(ops, A, hist) && Matches(Effect(ops, A, hist), ops[k].entries)
  {
    assert (hist + [k])[..|hist|] == hist;
  }

  lemma SucceededAfter(g: Shared, g': Shared, before: seq<Tag>)
    requires Rely(g, g') && StepEffect(g, g') && ListsSucceeded(g.ops, before)
    ensures ListsSucceeded(g'.ops, before + Committing(g, g'))
  {
    forall k | k in g.ops ensures OpEvolves(g, g', k) { }
    if k :| Commits(g, g', k) {
      assert forall l :: Commits(g, g', l) <==> l == k;
    }
    forall l ensures l in g'.ops && g'.ops[l].status.Succeeded? <==> l in before + Committing(g, g') {
      if l in g'.ops && g'.ops[l].status.Succeeded? && l !in before { assert Commits(g, g', l); }
    }
  }

  /** Later states only add to the order. */
  lemma {:induction false} OrderGrows(run: seq<State>, m: nat, n: nat)
    requires m <= n < |run|
    ensures CommitOrder(run, m) <= CommitOrder(run, n)
    decreases n - m
  {
    if m < n { OrderGrows(run, m, n - 1); }
  }

  lemma {:induction false} RunRely(run: seq<State>, m: nat, n: nat, k: Tag)
    requires Run(run) && m <= n < |run| && k in run[m].g.ops
    ensures k in run[n].g.ops && run[n].g.ops[k].entries == run[m].g.ops[k].entries
    ensures !run[m].g.ops[k].status.Undecided? ==> run[n].g.ops[k].status == run[m].g.ops[k].status
    ensures |run[n].g.mem| == |run[m].g.mem|
    decreases n - m
  {
    if m < n {
      RunRely(run, m, n - 1, k);
      RunStep(run, n - 1);
      assert OpEvolves(run[n - 1].g, run[n].g, k);
    }
  }

  /** A decided status stays, and the descriptor shows it until its owner moves the sequence number on. */
  lemma DecidedForEver(run: seq<State>, m: nat, n: nat, k: Tag)
    requires Run(run) && m <= n < |run| && k in run[m].g.ops && !run[m].g.ops[k].status.Undecided?
    ensures k in run[n].g.ops && run[n].g.ops[k].status == run[m].g.ops[k].status
    ensures k.tid < |run[n].g.kd| && k.seqno <= run[n].g.kd[k.tid].seqno
    ensures run[n].g.kd[k.tid].seqno == k.seqno ==> run[n].g.kd[k.tid].state == run[m].g.ops[k].status
  {
    RunRely(run, m, n, k);
    RunInv(run, n);
    assert OpOk(run[n].g, k);
  }

  /** The step at which an operation succeeds finds its tag at every one of its addresses. */
  lemma SuccessHoldsAllAddresses(run: seq<State>, n: nat, k: Tag, j: nat)
    requires Run(run) && n + 1 < |run| && Commits(run[n].g, run[n + 1].g, k)
    requires j < |run[n].g.ops[k].entries|
    ensures Holds(run[n + 1].g, k, j)
  {
    RunStep(run, n);
    assert OpEvolves(run[n].g, run[n + 1].g, k);
  }

  /** Thread t is about to return b from `execute` of operation k. */
  ghost predicate Returns(s: State, t: nat, k: Tag, b: bool) {
    && t < |s.th| && |s.th[t].stack| == 1
    && s.th[t].stack[0].tag == k && !s.th[t].stack[0].helping && s.th[t].stack[0].pc == Return(b)
  }

  lemma ReturnTellsStatus(run: seq<State>, n: nat, t: nat, k: Tag, b: bool)
    requires Run(run) && n < |run| && Returns(run[n], t, k, b)
    ensures k in run[n].g.ops && !run[n].g.ops[k].status.Undecided?
    ensures b <==> run[n].g.ops[k].status.Succeeded?
  {
    RunInv(run, n);
    assert FrameOk(run[n].g, run[n].th[t].stack[0]);
  }

  lemma {:induction false} SuccessHasInstant(run: seq<State>, m: nat, n: nat, k: Tag) returns (p: nat)
    requires Run(run) && m <= n < |run| && k !in run[m].g.ops
    requires k in run[n].g.ops && run[n].g.ops[k].status.Succeeded?
    ensures m <= p < n && Commits(run[p].g, run[p + 1].g, k)
    ensures Matches(Abs(run[p].g), run[n].g.ops[k].entries)
    ensures Abs(run[p + 1].g) == Written(Abs(run[p].g), run[n].g.ops[k].entries)
    decreases n - m
  {
    var g, g' := run[n - 1].g, run[n].g;
    RunStep(run, n - 1);
    if k in g.ops { assert OpEvolves(g, g', k); }
    if k in g.ops && g.ops[k].status.Succeeded? {
      p := SuccessHasInstant(run, m, n - 1, k);
    } else {
      p := n - 1;
    }
  }

  /** At this state entry i of operation k holds a plain value other than the expected one. */
  ghost predicate Mismatch(s: State, k: Tag, i: nat) {
    && k in s.g.ops && i < |s.g.ops[k].entries|
    && s.g.ops[k].entries[i].addr < |s.g.mem|
    && s.g.mem[s.g.ops[k].entries[i].addr].Val?
    && s.g.mem[s.g.ops[k].entries[i].addr].v != s.g.ops[k].entries[i].oldval
  }

  predicate Contradicted(g: Shared, k: Tag) {
    k in g.ops && g.ops[k].contradicted
  }

  lemma OnlyTryCasContradicts(g: Shared, T: Thread, t: nat, g': Shared, T': Thread, k: Tag)
    requires t < |g.kd| && t < |g.rd| && ThreadStep(g, T, t, g', T') && !DoTryCas(g, T, t, g', T')
    ensures Contradicted(g', k) ==> Contradicted(g, k)
  {
  }

  lemma ContradictionStep(s: State, s': State, k: Tag) returns (i: nat)
    requires Inv(s) && Next(s, s') && Contradicted(s'.g, k) && !Contradicted(s.g, k)
    ensures Mismatch(s, k, i)
  {
    var t: nat :| StepOf(s, s', t);
    var T := s.th[t];
    if !DoTryCas(s.g, T, t, s'.g, s'.th[t]) { OnlyTryCasContradicts(s.g, T, t, s'.g, s'.th[t], k); }
    assert FrameOk(s.g, Top(T)) && RopOk(s.g, Own(s.g, t));
    i := Top(T).pc.i;
  }

  lemma {:induction false} ContradictionHasInstant(run: seq<State>, n: nat, k: Tag) returns (p: nat, i: nat)
    requires Run(run) && n < |run| && Contradicted(run[n].g, k)
    ensures p < n && Mismatch(run[p], k, i)
  {
    assert n > 0 by { assert Init(run[0]); }
    if Contradicted(run[n - 1].g, k) {
      p, i := ContradictionHasInstant(run, n - 1, k);
    } else {
      p := n - 1;
      RunInv(run, p);
      assert Next(run[p], run[p + 1]);
      i := ContradictionStep(run[p], run[p + 1], k);
    }
  }

  /** A call of `execute` that returns false met, at one instant of the call, an address whose value
      was not the expected one, and has no effect at all. */
  lemma ExecuteFalse(run: seq<State>, n: nat, t: nat, k: Tag) returns (p: nat, i: nat)
    requires Run(run) && n < |run| && Returns(run[n], t, k, false)
    ensures p < n && Mismatch(run[p], k, i)
    ensures !Matches(Abs(run[p].g), run[p].g.ops[k].entries)
    ensures forall q: nat :: q + 1 < |run| ==> !Commits(run[q].g, run[q + 1].g, k)
  {
    ReturnTellsStatus(run, n, t, k, false);
    FailedIsContradicted(run, n, k);
    p, i := ContradictionHasInstant(run, n, k);
    forall q: nat | q + 1 < |run| && Commits(run[q].g, run[q + 1].g, k) ensures false {
      if q + 1 <= n { RunRely(run, q + 1, n, k); } else { RunRely(run, n, q + 1, k); }
    }
  }

  lemma FailedIsContradicted(run: seq<State>, n: nat, k: Tag)
    requires Run(run) && n < |run| && k in run[n].g.ops && run[n].g.ops[k].status.Failed?
    ensures Contradicted(run[n].g, k)
  {
    RunInv(run, n);
    assert OpOk(run[n].g, k);
  }

  /** Once the tag of a succeeded operation has left an address, no stalled helper brings it back. */
  lemma {:induction false} SucceededTagStaysAway(run: seq<State>, m: nat, n: nat, k: Tag, a: nat)
    requires Run(run) && m <= n < |run| && k in run[m].g.ops && run[m].g.ops[k].status.Succeeded?
    requires a < |run[m].g.mem| && run[m].g.mem[a] != KcasTag(k)
    ensures |run[n].g.mem| == |run[m].g.mem| && run[n].g.mem[a] != KcasTag(k)
    decreases n - m
  {
    if m < n {
      SucceededTagStaysAway(run, m, n - 1, k, a);
      RunRely(run, m, n - 1, k);
      var p := n - 1;
      RunInv(run, p);
      assert Next(run[p], run[p + 1]);
      NoReinstall(run[p], run[n], k, a);
    }
  }

  /** Only the compare-and-swap of rdcssHelp puts a KCAS tag into memory. */
  lemma OnlyFinishInstalls(g: Shared, T: Thread, t: nat, g': Shared, T': Thread, k: Tag, a: nat)
    requires t < |g.kd| && t < |g.rd| && ThreadStep(g, T, t, g', T') && !DoRFinish(g, T, g', T')
    requires a < |g.mem| && g.mem[a] != KcasTag(k)
    ensures |g'.mem| == |g.mem| && g'.mem[a] != KcasTag(k)
  {
  }

  lemma NoReinstall(s: State, s': State, k: Tag, a: nat)
    requires Inv(s) && Next(s, s') && k in s.g.ops && s.g.ops[k].status.Succeeded?
    requires a < |s.g.mem| && s.g.mem[a] != KcasTag(k)
    ensures |s'.g.mem| == |s.g.mem| && s'.g.mem[a] != KcasTag(k)
  {
    var t: nat :| StepOf(s, s', t);
    if DoRFinish(s.g, s.th[t], s'.g, s'.th[t]) {
      assert RopOk(s.g, s.th[t].slot.tag);
    } else {
      OnlyFinishInstalls(s.g, s.th[t], t, s'.g, s'.th[t], k, a);
    }
  }
}
