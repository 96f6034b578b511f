/** What whole runs of the DCSS machine amount to, and who decides an operation that fails. */
module DcssTheorems {
  import opened DcssModel
  import opened DcssProof

  // ----- refinement -----

  /** What changes abstract memory: a store of the program, or an operation that succeeds. */
  datatype Event = Stored(a: nat, v: nat) | Committed(k: Tag)

  function Assigned(A: seq<nat>, a: nat, v: nat): (A': seq<nat>)
    ensures |A'| == |A|
  {
    if a < |A| then A[a := v] else A
  }

  /** Memory A after one event. */
  function After(ops: map<Tag, Op>, A: seq<nat>, e: Event): (A': seq<nat>)
    ensures |A'| == |A|
  {
    match e
    case Stored(a, v) => Assigned(A, a, v)
    case Committed(k) => if k in ops then Assigned(A, ops[k].body.addr2, ops[k].body.new2) else A
  }

  /** Memory A after some events. */
  function Effect(ops: map<Tag, Op>, A: seq<nat>, hist: seq<Event>): (A': seq<nat>)
    ensures |A'| == |A|
  {
    if hist == [] then A else After(ops, Effect(ops, A, hist[..|hist| - 1]), hist[|hist| - 1])
  }

  /** An event finds memory A as it should be: a word in range, and for an operation old2 there. */
  predicate Finds(ops: map<Tag, Op>, A: seq<nat>, e: Event) {
    match e
    case Stored(a, _) => a < |A|
    case Committed(k) => k in ops && ops[k].body.addr2 < |A| && A[ops[k].body.addr2] == ops[k].body.old2
  }

  ghost predicate AllFind(ops: map<Tag, Op>, A: seq<nat>, hist: seq<Event>) {
    if hist == [] then true
    else
      var before := hist[..|hist| - 1];
      AllFind(ops, A, before) && Finds(ops, Effect(ops, A, before), hist[|hist| - 1])
  }

  /** The operations among the events are those that have succeeded, each once. */
  ghost predicate ListsSucceeded(ops: map<Tag, Op>, hist: seq<Event>) {
    && (forall k :: k in ops && ops[k].status.Succeeded? <==> Committed(k) in hist)
    && (forall i, j :: 0 <= i < j < |hist| && hist[i].Committed? ==> hist[i] != hist[j])
  }

  /** Abstract memory is A after the events of hist. */
  ghost predicate Refines(g: Shared, A: seq<nat>, hist: seq<Event>) {
    ListsSucceeded(g.ops, hist) && AllFind(g.ops, A, hist) && Abs(g) == Effect(g.ops, A, hist)
  }

  /** What happens in a step, if anything. */
  ghost function Happening(g: Shared, g': Shared): seq<Event> {
    if k :| Commits(g, g', k) then [Committed(k)]
    else if a: nat :| Store(g, a, g') && g' != g then [Stored(a, g'.mem[a].v)]
    else []
  }

  /** The events up to state n, in the order of their steps. */
  ghost function Events(run: seq<State>, n: nat): seq<Event>
    requires n < |run|
  {
    if n == 0 then [] else Events(run, n - 1) + Happening(run[n - 1].g, run[n].g)
  }

  /** In every run abstract memory is the initial memory after the stores of the program and the succeeded
      operations, each once, in the order of their steps; each operation finds its old2 when its turn comes.
      The list of events is only ever added to. */
  lemma RunRefines(run: seq<State>, n: nat)
    requires Run(run) && n < |run|
    ensures Refines(run[n].g, Abs(run[0].g), Events(run, n))
    ensures forall m: nat :: m <= n ==> Events(run, m) <= Events(run, n)
  {
    RefinesAt(run, n, Abs(run[0].g));
    forall m: nat | m <= n ensures Events(run, m) <= Events(run, n) { EventsGrow(run, m, n); }
  }

  lemma {:induction false} RefinesAt(run: seq<State>, n: nat, A: seq<nat>)
    requires Run(run) && n < |run| && A == Abs(run[0].g)
    ensures Refines(run[n].g, A, Events(run, n))
  {
    if n == 0 {
      NothingYet(run[0]);
    } else {
      var m := n - 1;
      RefinesAt(run, m, A);
      RefinesNext(run, m, A);
    }
  }

  lemma {:induction false} EventsGrow(run: seq<State>, m: nat, n: nat)
    requires m <= n < |run|
    ensures Events(run, m) <= Events(run, n)
    decreases n - m
  {
    if m < n { EventsGrow(run, m, n - 1); }
  }

  lemma NothingYet(s: State)
    requires Init(s)
    ensures Refines(s.g, Abs(s.g), [])
  {
  }

  lemma RefinesNext(run: seq<State>, n: nat, A: seq<nat>)
    requires Run(run) && n + 1 < |run| && Refines(run[n].g, A, Events(run, n))
    ensures Refines(run[n + 1].g, A, Events(run, n + 1))
  {
    RunStep(run, n);
    StepRefinesOn(run[n], run[n + 1], A, Events(run, n));
  }

  lemma StepRefinesOn(s: State, s': State, A: seq<nat>, before: seq<Event>)
    requires Inv(s) && Inv(s') && Next(s, s') && Rely(s.g, s'.g) && Refines(s.g, A, before)
    ensures Refines(s'.g, A, before + Happening(s.g, s'.g))
  {
    EffectEvolves(s.g, s'.g, A, before);
    SucceededNext(s, s', before);
    StepHappens(s, s');
    Appended(s.g, s'.g, A, before, Happening(s.g, s'.g));
  }

  lemma Appended(g: Shared, g': Shared, A: seq<nat>, before: seq<Event>, now: seq<Event>)
    requires MovesBy(g, g', now) && AllFind(g'.ops, A, before) && Abs(g) == Effect(g'.ops, A, before)
    ensures AllFind(g'.ops, A, before + now) && Abs(g') == Effect(g'.ops, A, before + now)
  {
    if now == [] {
      assert before + now == before;
    } else {
      assert (before + now)[..|before|] == before;
    }
  }

  /** Bodies never change, and so neither does what events amount to. */
  lemma {:induction false} EffectEvolves(g: Shared, g': Shared, A: seq<nat>, hist: seq<Event>)
    requires Rely(g, g') && AllFind(g.ops, A, hist)
    ensures Effect(g'.ops, A, hist) == Effect(g.ops, A, hist) && AllFind(g'.ops, A, hist)
  {
    if hist != [] {
      EffectEvolves(g, g', A, hist[..|hist| - 1]);
      var e := hist[|hist| - 1];
      if e.Committed? { assert OpEvolves(g, g', e.k); }
    }
  }

  /** The event of a step finds memory as it should be, and abstract memory moves by it. */
  ghost predicate MovesBy(g: Shared, g': Shared, now: seq<Event>) {
    if now == [] then Abs(g') == Abs(g)
    else |now| == 1 && Finds(g'.ops, Abs(g), now[0]) && Abs(g') == After(g'.ops, Abs(g), now[0])
  }

  lemma StepHappens(s: State, s': State)
    requires Inv(s) && Next(s, s') && Rely(s.g, s'.g)
    ensures MovesBy(s.g, s'.g, Happening(s.g, s'.g))
  {
    var now := Happening(s.g, s'.g);
    if StoreStep(s, s') {
      var a: nat :| Store(s.g, a, s'.g);
      StoreHappens(s.g, a, s'.g, now);
    } else {
      NextRefines(s, s');
      if now != [] && now[0].Committed? {
        assert Commits(s.g, s'.g, now[0].k) && OpEvolves(s.g, s'.g, now[0].k);
      } else if now != [] {
        StoreMoves(s.g, now[0].a, s'.g);
      }
    }
  }

  /** Only the program stores. */
  lemma StoredByProgram(s: State, s': State, a: nat, v: nat)
    requires Inv(s) && Next(s, s') && Happening(s.g, s'.g) == [Stored(a, v)]
    ensures StoreStep(s, s') && s.g.mem != s'.g.mem
  {
    if !StoreStep(s, s') {
      var t: nat :| StepOf(s, s', t);
      NoThreadStores(s.g, s.th[t], t, s'.g, s'.th[t], a);
    }
  }

  lemma NoThreadStores(g: Shared, T: Thread, t: nat, g': Shared, T': Thread, a: nat)
    requires t < |g.desc| && ThreadStep(g, T, t, g', T') && Store(g, a, g')
    ensures g' == g
  {
  }

  lemma StoreHappens(g: Shared, a: nat, g': Shared, now: seq<Event>)
    requires Store(g, a, g') && now == Happening(g, g')
    ensures MovesBy(g, g', now)
  {
    assert forall k :: !Commits(g, g', k);
    if g' != g {
      assert now != [] && now[0].Stored?;
      StoreMoves(g, now[0].a, g');
    }
  }

  lemma StoreMoves(g: Shared, a: nat, g': Shared)
    requires Store(g, a, g')
    ensures MovesBy(g, g', [Stored(a, g'.mem[a].v)])
  {
    assert Abs(g') == Abs(g)[a := g'.mem[a].v];
  }

  lemma SucceededNext(s: State, s': State, before: seq<Event>)
    requires Inv(s) && Inv(s') && Next(s, s') && Rely(s.g, s'.g) && ListsSucceeded(s.g.ops, before)
    ensures ListsSucceeded(s'.g.ops, before + Happening(s.g, s'.g))
  {
    var now := Happening(s.g, s'.g);
    var after := before + now;
    forall k ensures k in s'.g.ops && s'.g.ops[k].status.Succeeded? <==> Committed(k) in after {
      if k in s.g.ops { assert OpEvolves(s.g, s'.g, k); }
      if k in s'.g.ops && s'.g.ops[k].status.Succeeded? && Committed(k) !in before {
        PublishedUndecided(s, s', k);
        CommitHappens(s, s', k);
      }
    }
  }

  lemma CommitHappens(s: State, s': State, k: Tag)
    requires Inv(s) && Next(s, s') && Commits(s.g, s'.g, k)
    ensures Happening(s.g, s'.g) == [Committed(k)]
  {
    forall l | Commits(s.g, s'.g, l) ensures l == k { OneCommit(s, s', k, l); }
  }

  lemma OneCommit(s: State, s': State, k: Tag, l: Tag)
    requires Inv(s) && Next(s, s') && Commits(s.g, s'.g, k) && Commits(s.g, s'.g, l)
    ensures l == k
  {
    var t: nat :| StepOf(s, s', t);
    assert ThreadOk(s.g, t, s.th[t]);
    OnlyCasMutDecides(s.g, s.th[t], t, s'.g, s'.th[t], k);
    OnlyCasMutDecides(s.g, s.th[t], t, s'.g, s'.th[t], l);
  }

  lemma OnlyCasMutDecides(g: Shared, T: Thread, t: nat, g': Shared, T': Thread, k: Tag)
    requires Before(g, t, T) && ThreadStep(g, T, t, g', T')
    requires k in g.ops && k in g'.ops && g'.ops[k].status != g.ops[k].status
    ensures DoCasMut(g, T, g', T') && T.slot.tag == k
  {
    if Publish(g, T, t, g', T') {
      var k0 := Tag(t, g.desc[t].seqno + 1);
      assert k0 !in g.ops by { assert k0 in g.ops ==> OpOk(g, k0); }
    }
  }

  // ----- who decides -----

  /** In this step thread u decides operation k for failure. */
  ghost predicate DecidesForFailure(s: State, s': State, u: nat, k: Tag) {
    && StepOf(s, s', u) && DoCasMut(s.g, s.th[u], s'.g, s'.th[u]) && s.th[u].slot.tag == k
    && k in s.g.ops && s.g.ops[k].status.Undecided? && k in s'.g.ops && s'.g.ops[k].status.Failed?
  }

  /** The owner of k has its verdict and will not report w, or has been past that. */
  ghost predicate Withholds(s: State, k: Tag, w: Word) {
    && k.tid < |s.g.desc| == |s.th|
    && var pc, sl := s.th[k.tid].pc, s.th[k.tid].slot;
       || k.seqno < s.g.desc[k.tid].seqno
       || (k == Own(s.g, k.tid) && (Outside(pc) || (pc.Done? && pc.result != FailedAddr1(w))
                                    || (pc.OwnHelp? && sl.Finish? && sl.val1 != w)))
  }

  lemma WithholdsStays(s: State, s': State, k: Tag, w: Word)
    requires Inv(s) && Next(s, s') && Withholds(s, k, w)
    ensures Withholds(s', k, w)
  {
    if !StoreStep(s, s') {
      var u: nat :| StepOf(s, s', u);
      assert ThreadOk(s.g, u, s.th[u]);
      StepKeeps(s.g, s.th[u], u, s'.g, s'.th[u]);
      if u == k.tid { OwnerWithholds(s, s', k, w); } else { assert Untouched(s.g, s'.g, k.tid); }
    }
  }

  lemma OwnerWithholds(s: State, s': State, k: Tag, w: Word)
    requires StepOf(s, s', k.tid) && PcOk(s.g, k.tid, s.th[k.tid]) && Withholds(s, k, w)
    ensures Withholds(s', k, w)
  {
  }

  lemma {:induction false} WithholdsForEver(run: seq<State>, m: nat, n: nat, k: Tag, w: Word)
    requires Run(run) && m <= n < |run| && Withholds(run[m], k, w)
    ensures Withholds(run[n], k, w)
    decreases n - m
  {
    if m < n {
      RunStep(run, n - 1);
      WithholdsForEver(run, m, n - 1, k, w);
      WithholdsStays(run[n - 1], run[n], k, w);
    }
  }

  /** An owner that decides for failure has read something other than old1. */
  lemma OwnVerdict(s: State, s': State, k: Tag)
    requires Inv(s) && DecidesForFailure(s, s', k.tid, k)
    ensures Withholds(s', k, Val(s.g.ops[k].body.old1))
  {
    assert ThreadOk(s.g, k.tid, s.th[k.tid]) && OpOk(s.g, k);
  }

  lemma {:induction false} FailureHasDecision(run: seq<State>, n: nat, k: Tag) returns (p: nat, u: nat)
    requires Run(run) && n < |run| && k in run[n].g.ops && run[n].g.ops[k].status.Failed?
    ensures p < n && DecidesForFailure(run[p], run[p + 1], u, k)
  {
    assert n > 0 by { assert Init(run[0]); }
    p := n - 1;
    RunStep(run, p);
    if k in run[p].g.ops && run[p].g.ops[k].status.Failed? {
      p, u := FailureHasDecision(run, n - 1, k);
    } else {
      u := DecidedNow(run[p], run[n], k);
    }
  }

  lemma DecidedNow(s: State, s': State, k: Tag) returns (u: nat)
    requires Inv(s) && Inv(s') && Next(s, s') && Rely(s.g, s'.g) && k in s'.g.ops && s'.g.ops[k].status.Failed?
    requires k in s.g.ops ==> !s.g.ops[k].status.Failed?
    ensures DecidesForFailure(s, s', u, k)
  {
    if k !in s.g.ops {
      assert OpOk(s'.g, k);
      NewNotInstalled(s, s', k);
      assert false;
    }
    assert OpEvolves(s.g, s'.g, k);
    u :| StepOf(s, s', u);
    assert ThreadOk(s.g, u, s.th[u]);
    OnlyCasMutDecides(s.g, s.th[u], u, s'.g, s'.th[u], k);
  }

  /** A call that reports old1 for the first address was decided by another thread, which had read something
      else there. */
  lemma DecidedByAnother(run: seq<State>, n: nat, t: nat, k: Tag) returns (p: nat, u: nat)
    requires Run(run) && n < |run| && k in run[n].g.ops
    requires Returns(run[n], t, k, FailedAddr1(Val(run[n].g.ops[k].body.old1)))
    ensures p < n && u != t && DecidesForFailure(run[p], run[p + 1], u, k)
    ensures run[p].th[u].slot.val1 != Val(run[n].g.ops[k].body.old1)
  {
    RunInv(run, n);
    assert ThreadOk(run[n].g, t, run[n].th[t]);
    p, u := FailureHasDecision(run, n, k);
    RunInv(run, p);
    assert ThreadOk(run[p].g, u, run[p].th[u]);
    RunEvolves(run, p, n, k);
    if u == t {
      OwnVerdict(run[p], run[p + 1], k);
      WithholdsForEver(run, p + 1, n, k, Val(run[n].g.ops[k].body.old1));
    }
  }
}
