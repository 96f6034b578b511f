/** What whole calls of getBlock and addBlock do. */
module TaggedStackCalls {
  import opened Wrappers
  import opened TaggedStackModel
  import opened TaggedStackProof

  /** Thread t pops in step p. */
  ghost predicate PopAt(run: seq<State>, t: Thread, p: nat) {
    p + 1 < |run| && t in run[p].pcs && Pop(run[p], run[p + 1], t)
  }

  ghost predicate PushAt(run: seq<State>, t: Thread, p: nat) {
    p + 1 < |run| && t in run[p].pcs && Push(run[p], run[p + 1], t)
  }

  /** From state i to state n thread t is in one call. */
  ghost predicate InCall(run: seq<State>, t: Thread, i: nat, n: nat) {
    n < |run| && forall l {:trigger run[l]} :: i <= l <= n ==> t in run[l].pcs && !run[l].pcs[t].Idle?
  }

  ghost predicate NoPop(run: seq<State>, t: Thread, i: nat, n: nat) {
    forall p: nat {:trigger PopAt(run, t, p)} :: i <= p < n ==> !PopAt(run, t, p)
  }

  ghost predicate OnePop(run: seq<State>, t: Thread, i: nat, n: nat, p: nat, b: Block) {
    && i <= p < n < |run| && PopAt(run, t, p) && Pops(run[p], run[p + 1], b)
    && forall q: nat {:trigger PopAt(run, t, q)} :: i <= q < n && PopAt(run, t, q) ==> q == p
  }

  ghost predicate EmptyAt(run: seq<State>, i: nat, n: nat, p: nat) {
    i <= p < n < |run| && run[p].chain == []
  }

  predicate InGet(pc: Pc) { pc.GetLoad? || pc.GetNext? || pc.GetCas? || pc.GetClear? || pc.Got? }

  /** The block that a call of getBlock has popped. */
  function Popped(pc: Pc): Link {
    match pc
    case GetClear(b) => Some(b)
    case Got(r) => r
    case _ => None
  }

  ghost predicate ClearedIfGot(s: State, pc: Pc) {
    pc.Got? && pc.result.Some? ==> Cleared(s, pc.result.value)
  }

  /** How far a call of getBlock has got in state n. */
  ghost predicate GetProgress(run: seq<State>, t: Thread, i: nat, n: nat)
    requires n < |run| && t in run[n].pcs
  {
    var pc := run[n].pcs[t];
    && InGet(pc) && ClearedIfGot(run[n], pc)
    && (Popped(pc).None? ==> NoPop(run, t, i, n))
    && (Popped(pc).Some? ==> exists p: nat :: OnePop(run, t, i, n, p, Popped(pc).value))
    && (pc == Got(None) ==> exists p: nat :: EmptyAt(run, i, n, p))
  }

  predicate Cleared(s: State, b: Block) { b in s.next && s.next[b] == None }

  /** A call of getBlock that returns a block has popped that block, once, and cleared its link; one that returns
      none has popped nothing and found the stack empty.  The thread is idle in state i, then in the call, and about
      to return in state n. */
  lemma GetCall(run: seq<State>, t: Thread, i: nat, n: nat) returns (p: nat)
    requires Run(run) && i < n && InCall(run, t, i + 1, n) && t in run[i].pcs && run[i].pcs[t].Idle? && run[n].pcs[t].Got?
    ensures match run[n].pcs[t].result
            case Some(b) => OnePop(run, t, i + 1, n, p, b) && Cleared(run[n], b) && Owns(run[n], t, b)
            case None => NoPop(run, t, i + 1, n) && EmptyAt(run, i + 1, n, p)
  {
    GotFromGet(run, t, i, n);
    GetSoFar(run, t, i + 1, n);
    GotOwns(run, t, n);
    if run[n].pcs[t].result.Some? {
      p :| OnePop(run, t, i + 1, n, p, run[n].pcs[t].result.value);
    } else {
      p :| EmptyAt(run, i + 1, n, p);
    }
  }

  lemma GotOwns(run: seq<State>, t: Thread, n: nat)
    requires Run(run) && n < |run| && t in run[n].pcs && run[n].pcs[t].Got?
    ensures run[n].pcs[t].result.Some? ==> Owns(run[n], t, run[n].pcs[t].result.value)
  {
    RunInv(run, n);
    assert PcOk(run[n], t, run[n].pcs[t]);
  }

  lemma GotFromGet(run: seq<State>, t: Thread, i: nat, n: nat)
    requires Run(run) && i < n && InCall(run, t, i + 1, n) && t in run[i].pcs && run[i].pcs[t].Idle? && run[n].pcs[t].Got?
    ensures run[i + 1].pcs[t].GetLoad?
  {
    assert Next(run[i], run[i + 1]);
    assert t in run[i + 1].pcs && !run[i + 1].pcs[t].Idle?;
    CallBegins(run[i], run[i + 1], t);
    if run[i + 1].pcs[t].AddLoad? { AddSoFar(run, t, i + 1, n, run[i + 1].pcs[t].block); }
  }

  lemma CallBegins(s: State, s': State, t: Thread)
    requires Next(s, s') && t in s.pcs && t in s'.pcs && s.pcs[t].Idle? && !s'.pcs[t].Idle?
    ensures s'.pcs[t].GetLoad? || s'.pcs[t].AddLoad?
  {
    var u :| Step(s, s', u);
    if u != t { OthersStay(s, s', t, u); }
  }

  lemma {:induction false} GetSoFar(run: seq<State>, t: Thread, i: nat, n: nat)
    requires Run(run) && i <= n && InCall(run, t, i, n) && run[i].pcs[t].GetLoad?
    ensures GetProgress(run, t, i, n)
    decreases n - i
  {
    if i < n {
      var m := n - 1;
      assert InCall(run, t, i, m);
      GetSoFar(run, t, i, m);
      RunMoves(run, t, i, m);
      GetProgresses(run, t, i, m);
    }
  }

  lemma RunMoves(run: seq<State>, t: Thread, i: nat, m: nat)
    requires Run(run) && i <= m && InCall(run, t, i, m + 1) && GetProgress(run, t, i, m)
    ensures GetMove(run[m], run[m + 1], t)
  {
    RunNext(run, m);
    assert t in run[m + 1].pcs && !run[m + 1].pcs[t].Idle?;
    var u :| Step(run[m], run[m + 1], u);
    if u == t { OwnGetMoves(run[m], run[m + 1], t); } else { OtherGetMoves(run[m], run[m + 1], t, u); }
  }

  lemma RunNext(run: seq<State>, m: nat)
    requires Run(run) && m + 1 < |run|
    ensures Inv(run[m]) && Next(run[m], run[m + 1])
  {
    RunInv(run, m);
    assert Next(run[m], run[m + 1]);
  }

  /** What a step, its own or that of another thread, does to a thread in a call of getBlock. */
  ghost predicate GetMove(s: State, s': State, t: Thread)
    requires t in s.pcs && t in s'.pcs
  {
    var pc, pc' := s.pcs[t], s'.pcs[t];
    && InGet(pc') && ClearedIfGot(s', pc')
    && if Pop(s, s', t) then Popped(pc).None? && pc'.GetClear? && Pops(s, s', pc'.block)
       else Popped(pc') == Popped(pc) && (pc' == Got(None) ==> pc == pc' || s.chain == [])
  }

  lemma OnlyGetStep(s: State, s': State, t: Thread)
    requires Step(s, s', t) && InGet(s.pcs[t])
    ensures GetStep(s, s', t)
  {
  }

  lemma OwnGetMoves(s: State, s': State, t: Thread)
    requires Inv(s) && Step(s, s', t) && t in s'.pcs && InGet(s.pcs[t]) && !s'.pcs[t].Idle?
    ensures GetMove(s, s', t)
  {
    OnlyGetStep(s, s', t);
    if Pop(s, s', t) { PopKeeps(s, s', t); } else { NoPopMoves(s, s', t); }
  }

  lemma NoPopMoves(s: State, s': State, t: Thread)
    requires Linked(s) && t in s.pcs && t in s'.pcs && GetStep(s, s', t) && !Pop(s, s', t)
    requires InGet(s.pcs[t]) && !s'.pcs[t].Idle?
    ensures GetMove(s, s', t)
  {
  }

  lemma OtherGetMoves(s: State, s': State, t: Thread, u: Thread)
    requires Inv(s) && Step(s, s', u) && u != t && t in s.pcs && t in s'.pcs
    requires InGet(s.pcs[t]) && ClearedIfGot(s, s.pcs[t])
    ensures GetMove(s, s', t)
  {
    assert PcOk(s, t, s.pcs[t]) && PcOk(s, u, s.pcs[u]);
    OthersStay(s, s', t, u);
    if s.pcs[t].Got? && s.pcs[t].result.Some? { OthersLinkStays(s, s', t, u, s.pcs[t].result.value); }
  }

  lemma OthersStay(s: State, s': State, t: Thread, u: Thread)
    requires Step(s, s', u) && u != t && t in s.pcs
    ensures t in s'.pcs && s'.pcs[t] == s.pcs[t]
  {
  }

  /** No other thread writes the link of a block that t owns. */
  lemma OthersLinkStays(s: State, s': State, t: Thread, u: Thread, b: Block)
    requires Step(s, s', u) && u != t && PcOk(s, u, s.pcs[u]) && Owns(s, t, b) && b in s.next
    ensures b in s'.next && s'.next[b] == s.next[b]
  {
  }

  lemma GetProgresses(run: seq<State>, t: Thread, i: nat, m: nat)
    requires i <= m && m + 1 < |run| && t in run[m].pcs && t in run[m + 1].pcs && GetProgress(run, t, i, m)
    requires GetMove(run[m], run[m + 1], t)
    ensures GetProgress(run, t, i, m + 1)
  {
    var pc, pc' := run[m].pcs[t], run[m + 1].pcs[t];
    if Popped(pc').Some? {
      if PopAt(run, t, m) {
        assert OnePop(run, t, i, m + 1, m, Popped(pc').value);
      } else {
        var p: nat :| OnePop(run, t, i, m, p, Popped(pc).value);
        assert OnePop(run, t, i, m + 1, p, Popped(pc').value);
      }
    }
    if pc' == Got(None) {
      if pc == pc' {
        var p: nat :| EmptyAt(run, i, m, p);
        assert EmptyAt(run, i, m + 1, p);
      } else {
        assert EmptyAt(run, i, m + 1, m);
      }
    }
  }

  /** A call of addBlock that returns has pushed its block, once, in its last step.  The call begins in state i and
      returns in the step to state n. */
  lemma AddCall(run: seq<State>, t: Thread, i: nat, n: nat)
    requires Run(run) && i < n < |run| && InCall(run, t, i, n - 1) && run[i].pcs[t].AddLoad?
    requires t in run[n].pcs && run[n].pcs[t].Idle?
    ensures PushAt(run, t, n - 1) && Pushes(run[n - 1], run[n], run[i].pcs[t].block)
    ensures forall p: nat {:trigger PushAt(run, t, p)} :: i <= p < n && PushAt(run, t, p) ==> p == n - 1
  {
    AddSoFar(run, t, i, n - 1, run[i].pcs[t].block);
    AddMovesOut(run, t, n - 1, run[i].pcs[t].block);
  }

  lemma AddMovesOut(run: seq<State>, t: Thread, m: nat, b: Block)
    requires Run(run) && m + 1 < |run| && t in run[m].pcs && Adds(run[m].pcs[t], b)
    requires t in run[m + 1].pcs && run[m + 1].pcs[t].Idle?
    ensures PushAt(run, t, m) && Pushes(run[m], run[m + 1], b)
  {
    RunNext(run, m);
    AddMoves(run[m], run[m + 1], t, b);
  }

  predicate Adds(pc: Pc, b: Block) { (pc.AddLoad? || pc.AddLink? || pc.AddCas?) && pc.block == b }

  lemma {:induction false} AddSoFar(run: seq<State>, t: Thread, i: nat, n: nat, b: Block)
    requires Run(run) && i <= n && InCall(run, t, i, n) && run[i].pcs[t] == AddLoad(b)
    ensures Adds(run[n].pcs[t], b)
    ensures forall p: nat {:trigger PushAt(run, t, p)} :: i <= p < n ==> !PushAt(run, t, p)
    decreases n - i
  {
    if i < n {
      var m := n - 1;
      assert InCall(run, t, i, m);
      AddSoFar(run, t, i, m, b);
      AddMovesOn(run, t, m, b);
    }
  }

  lemma AddMovesOn(run: seq<State>, t: Thread, m: nat, b: Block)
    requires Run(run) && m + 1 < |run| && t in run[m].pcs && Adds(run[m].pcs[t], b)
    requires t in run[m + 1].pcs && !run[m + 1].pcs[t].Idle?
    ensures Adds(run[m + 1].pcs[t], b) && !PushAt(run, t, m)
  {
    RunNext(run, m);
    AddMoves(run[m], run[m + 1], t, b);
  }

  /** A step leaves a thread in its call of addBlock, unless it is the push. */
  lemma AddMoves(s: State, s': State, t: Thread, b: Block)
    requires Inv(s) && Next(s, s') && t in s.pcs && Adds(s.pcs[t], b)
    ensures t in s'.pcs
    ensures if s'.pcs[t].Idle? then Push(s, s', t) && Pushes(s, s', b) else Adds(s'.pcs[t], b) && !Push(s, s', t)
  {
    var u :| Step(s, s', u);
    if u != t {
      OthersStay(s, s', t, u);
    } else {
      OnlyAddStep(s, s', t, b);
      if Push(s, s', t) { PushKeeps(s, s', t); }
    }
  }

  lemma OnlyAddStep(s: State, s': State, t: Thread, b: Block)
    requires Step(s, s', t) && Adds(s.pcs[t], b)
    ensures AddStep(s, s', t)
    ensures Push(s, s', t) || Adds(s'.pcs[t], b)
  {
  }
}
