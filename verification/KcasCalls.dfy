/** What whole calls of `execute` and `readPtr` do, and what they leave in memory. */
module KcasCalls {
  import opened KcasModel
  import opened KcasInvariant
  import opened KcasSteps
  import opened KcasTheorems

  lemma RunNext(run: seq<State>, m: nat) returns (u: nat)
    requires Run(run) && m + 1 < |run|
    ensures Inv(run[m]) && StepOf(run[m], run[m + 1], u)
  {
    RunInv(run, m);
    assert Next(run[m], run[m + 1]);
    u :| StepOf(run[m], run[m + 1], u);
  }

  // ----- the operation a call is about -----

  /** In step m thread t calls `execute` with the entries es in its descriptor, and k becomes their tag. */
  ghost predicate ExecutedAt(run: seq<State>, m: nat, t: nat, k: Tag, es: seq<KEntry>) {
    && m + 1 < |run| && t < |run[m].th| && t < |run[m + 1].th| && t < |run[m].g.kd|
    && Execute(run[m].g, run[m].th[t], t, run[m + 1].g, run[m + 1].th[t])
    && run[m].g.kd[t].entries == es && k == Tag(t, run[m].g.kd[t].seqno + 1)
  }

  /** Thread t is in `execute` of operation k. */
  ghost predicate InExecute(s: State, t: nat, k: Tag) {
    t < |s.th| && s.th[t].stack != [] && s.th[t].stack[0].tag == k && !s.th[t].stack[0].helping
  }

  lemma InExecuteStep(s: State, s': State, t: nat, k: Tag)
    requires StepOf(s, s', t) && InExecute(s', t, k)
    ensures InExecute(s, t, k)
            || (Execute(s.g, s.th[t], t, s'.g, s'.th[t]) && k == Tag(t, s.g.kd[t].seqno + 1))
  {
    if s.th[t].stack == [] {
      if !Execute(s.g, s.th[t], t, s'.g, s'.th[t]) { EmptyStackStep(s.g, s.th[t], t, s'.g, s'.th[t]); }
    } else { BottomStep(s.g, s.th[t], t, s'.g, s'.th[t]); }
  }

  /** The steps of phase 1, and those around and after it. */
  ghost predicate LockingStep(g: Shared, T: Thread, t: nat, g': Shared, T': Thread)
    requires t < |g.rd|
  {
    || (exists f: Field :: CopyWord(g, T, f, g', T')) || Validate(g, T, g', T')
    || DoReadState(g, T, g', T') || LoopDone(g, T, g', T')
    || NewRdcss(g, T, t, g', T') || FillField(g, T, t, g', T') || PublishRdcss(g, T, t, g', T')
    || DoTryCas(g, T, t, g', T') || OwnDone(g, T, g', T')
  }

  ghost predicate FinishingStep(g: Shared, T: Thread, g': Shared, T': Thread) {
    || DecideRead(g, T, g', T') || DoDecideCas(g, T, g', T') || DoDecideRetry(g, T, g', T')
    || DoReadOutcome(g, T, g', T') || DoClean(g, T, g', T') || DoReturn(g, T, g', T')
  }

  ghost predicate SlotStep(g: Shared, T: Thread, g': Shared, T': Thread) {
    CopyRWord(g, T, g', T') || ValidateR(g, T, g', T') || DoRRead(g, T, g', T') || DoRFinish(g, T, g', T')
  }

  lemma HelpingStep(g: Shared, T: Thread, t: nat, g': Shared, T': Thread)
    requires t < |g.kd| && t < |g.rd| && ThreadStep(g, T, t, g', T') && T.stack != []
    ensures LockingStep(g, T, t, g', T') || FinishingStep(g, T, g', T') || SlotStep(g, T, g', T')
  {
  }

  /** What a step inside `help` does to the bottom of the stack. */
  ghost predicate KeepsBottom(T: Thread, T': Thread) {
    T'.stack != [] && T.stack != [] ==>
      T'.stack[0].tag == T.stack[0].tag && (T'.stack[0].helping || !T.stack[0].helping)
  }

  lemma LockingKeepsBottom(g: Shared, T: Thread, t: nat, g': Shared, T': Thread)
    requires t < |g.rd| && LockingStep(g, T, t, g', T')
    ensures KeepsBottom(T, T')
  {
    if DoTryCas(g, T, t, g', T') { TryCasKeepsBottom(g, T, t, g', T'); }
    else if Validate(g, T, g', T') { ValidateKeepsBottom(g, T, g', T'); }
    else { GotoKeepsBottom(g, T, t, g', T'); }
  }

  lemma TryCasKeepsBottom(g: Shared, T: Thread, t: nat, g': Shared, T': Thread)
    requires t < |g.rd| && DoTryCas(g, T, t, g', T')
    ensures KeepsBottom(T, T')
  {
  }

  lemma ValidateKeepsBottom(g: Shared, T: Thread, g': Shared, T': Thread)
    requires Validate(g, T, g', T')
    ensures KeepsBottom(T, T')
  {
  }

  lemma GotoKeepsBottom(g: Shared, T: Thread, t: nat, g': Shared, T': Thread)
    requires t < |g.rd| && LockingStep(g, T, t, g', T') && !DoTryCas(g, T, t, g', T') && !Validate(g, T, g', T')
    ensures KeepsBottom(T, T')
  {
  }

  lemma FinishingKeepsBottom(g: Shared, T: Thread, g': Shared, T': Thread)
    requires FinishingStep(g, T, g', T')
    ensures KeepsBottom(T, T')
  {
  }

  lemma SlotKeepsStack(g: Shared, T: Thread, g': Shared, T': Thread)
    requires SlotStep(g, T, g', T')
    ensures T'.stack == T.stack && !T.slot.Free?
  {
  }

  lemma EmptyStackStep(g: Shared, T: Thread, t: nat, g': Shared, T': Thread)
    requires t < |g.kd| && t < |g.rd| && ThreadStep(g, T, t, g', T') && T.stack == [] && !Execute(g, T, t, g', T')
    ensures T'.stack != [] ==> T'.stack[0].helping
  {
  }

  lemma BottomStep(g: Shared, T: Thread, t: nat, g': Shared, T': Thread)
    requires t < |g.kd| && t < |g.rd| && ThreadStep(g, T, t, g', T') && T.stack != []
    ensures KeepsBottom(T, T')
  {
    HelpingStep(g, T, t, g', T');
    if LockingStep(g, T, t, g', T') { LockingKeepsBottom(g, T, t, g', T'); }
    else if FinishingStep(g, T, g', T') { FinishingKeepsBottom(g, T, g', T'); }
    else { SlotKeepsStack(g, T, g', T'); }
  }

  /** A call of `execute` is about the entries that its owner left in the descriptor. */
  lemma {:induction false} Executed(run: seq<State>, n: nat, t: nat, k: Tag) returns (m: nat, es: seq<KEntry>)
    requires Run(run) && n < |run| && InExecute(run[n], t, k)
    ensures m < n && ExecutedAt(run, m, t, k, es) && k !in run[m].g.ops
    ensures k in run[n].g.ops && run[n].g.ops[k].entries == es
    ensures forall l {:trigger run[l]} :: m < l <= n ==> InExecute(run[l], t, k)
  {
    assert n > 0 by { assert Init(run[0]); }
    m := n - 1;
    RunExecute(run, m, t, k);
    if InExecute(run[m], t, k) {
      m, es := Executed(run, n - 1, t, k);
      RunRely(run, n - 1, n, k);
    } else {
      es := run[m].g.kd[t].entries;
    }
  }

  lemma RunExecute(run: seq<State>, m: nat, t: nat, k: Tag)
    requires Run(run) && m + 1 < |run| && InExecute(run[m + 1], t, k)
    ensures t < |run[m].th| && t < |run[m].g.kd|
    ensures InExecute(run[m], t, k)
            || (ExecutedAt(run, m, t, k, run[m].g.kd[t].entries) && k !in run[m].g.ops
                && k in run[m + 1].g.ops && run[m + 1].g.ops[k].entries == run[m].g.kd[t].entries)
  {
    var u := RunNext(run, m);
    if u == t { InExecuteStep(run[m], run[m + 1], t, k); }
    assert k !in run[m].g.ops || InExecute(run[m], t, k) by { assert k in run[m].g.ops ==> OpOk(run[m].g, k); }
  }

  /** Nobody but its owner writes to a descriptor that is being prepared. */
  lemma OnlyOwnerPrepares(s: State, s': State, t: nat, u: nat)
    requires Inv(s) && StepOf(s, s', u) && t < |s.th| && t != u && s.th[t].building
    ensures s'.g.kd[t] == s.g.kd[t]
  {
    StepKeeps(s.g, s.th[u], u, s'.g, s'.th[u]);
    assert Untouched(s.g, s'.g, t);
  }

  // ----- phase 2 -----

  /** Thread t, in `execute` of operation k, has cleaned entry j. */
  ghost predicate Past(s: State, t: nat, k: Tag, j: nat) {
    && InExecute(s, t, k) && |s.th[t].stack| == 1 && j < |s.th[t].stack[0].entries|
    && match s.th[t].stack[0].pc
       case Clean(i, _) => j < i
       case Return(_) => true
       case _ => false
  }

  /** In this step thread t cleans entry j of operation k. */
  ghost predicate Cleans(s: State, s': State, t: nat, k: Tag, j: nat) {
    && InExecute(s, t, k) && |s.th[t].stack| == 1 && j < |s.th[t].stack[0].entries|
    && t < |s'.th| && DoClean(s.g, s.th[t], s'.g, s'.th[t]) && s.th[t].stack[0].pc.Clean? && s.th[t].stack[0].pc.j == j
  }

  lemma PastStep(s: State, s': State, t: nat, k: Tag, j: nat)
    requires Inv(s) && StepOf(s, s', t) && Past(s', t, k, j) && InExecute(s, t, k)
    ensures Past(s, t, k, j) || Cleans(s, s', t, k, j)
  {
    if Running(s.th[t]) && |s.th[t].stack| == 1 {
      PastAlone(s.g, s.th[t], t, s'.g, s'.th[t], j);
    } else {
      PastNested(s.g, s.th[t], t, s'.g, s'.th[t]);
    }
  }

  lemma PastAlone(g: Shared, T: Thread, t: nat, g': Shared, T': Thread, j: nat)
    requires ThreadOk(g, t, T) && ThreadStep(g, T, t, g', T') && |T.stack| == |T'.stack| == 1 && T.slot.Free?
    requires !T.stack[0].helping && j < |T'.stack[0].entries|
    requires (T'.stack[0].pc.Clean? && j < T'.stack[0].pc.j) || T'.stack[0].pc.Return?
    ensures j < |T.stack[0].entries|
    ensures T.stack[0].pc.Return? || (T.stack[0].pc.Clean? && (j < T.stack[0].pc.j || (j == T.stack[0].pc.j && DoClean(g, T, g', T'))))
  {
    HelpingStep(g, T, t, g', T');
    if LockingStep(g, T, t, g', T') { LockingAlone(g, T, t, g', T'); }
    else if FinishingStep(g, T, g', T') { FinishingPast(g, T, t, g', T', j); }
  }

  lemma LockingAlone(g: Shared, T: Thread, t: nat, g': Shared, T': Thread)
    requires StackOk(g, t, T) && LockingStep(g, T, t, g', T') && |T.stack| == |T'.stack| == 1 && !T.stack[0].helping
    ensures !T'.stack[0].pc.Clean? && !T'.stack[0].pc.Return?
  {
  }

  /** The owner finds its own sequence number unchanged. */
  lemma FinishingPast(g: Shared, T: Thread, t: nat, g': Shared, T': Thread, j: nat)
    requires StackOk(g, t, T) && FinishingStep(g, T, g', T') && |T.stack| == |T'.stack| == 1
    requires !T.stack[0].helping && j < |T'.stack[0].entries|
    requires (T'.stack[0].pc.Clean? && j < T'.stack[0].pc.j) || T'.stack[0].pc.Return?
    ensures j < |T.stack[0].entries|
    ensures T.stack[0].pc.Return? || (T.stack[0].pc.Clean? && (j < T.stack[0].pc.j || (j == T.stack[0].pc.j && DoClean(g, T, g', T'))))
  {
  }

  /** A thread that helps others inside `execute` is not in phase 2 of its own. */
  lemma PastNested(g: Shared, T: Thread, t: nat, g': Shared, T': Thread)
    requires ThreadOk(g, t, T) && ThreadStep(g, T, t, g', T') && T.stack != [] && (!T.slot.Free? || |T.stack| > 1)
    ensures |T'.stack| == 1 ==> !T'.stack[0].pc.Clean? && !T'.stack[0].pc.Return?
  {
    HelpingStep(g, T, t, g', T');
    if LockingStep(g, T, t, g', T') { LockingNested(g, T, t, g', T'); }
    else if FinishingStep(g, T, g', T') { FinishingNested(g, T, g', T'); }
    else { SlotKeepsStack(g, T, g', T'); }
  }

  lemma LockingNested(g: Shared, T: Thread, t: nat, g': Shared, T': Thread)
    requires StackOk(g, t, T) && LockingStep(g, T, t, g', T') && |T.stack| > 1
    ensures |T'.stack| == 1 ==> T'.stack[0].pc.Entry?
  {
  }

  lemma FinishingNested(g: Shared, T: Thread, g': Shared, T': Thread)
    requires FinishingStep(g, T, g', T') && |T.stack| > 1 && forall d: nat :: d < |T.stack| - 1 ==> T.stack[d].pc.Entry?
    ensures |T'.stack| == 1 ==> T'.stack[0].pc.Entry?
  {
  }

  /** A call of `execute` that is about to return has looked at every entry for its tag. */
  lemma {:induction false} CleansEveryEntry(run: seq<State>, n: nat, t: nat, k: Tag, j: nat) returns (c: nat)
    requires Run(run) && n < |run| && Past(run[n], t, k, j)
    ensures c < n && Cleans(run[c], run[c + 1], t, k, j)
    ensures forall l {:trigger run[l]} :: c < l <= n ==> Past(run[l], t, k, j)
  {
    assert n > 0 by { assert Init(run[0]); }
    c := n - 1;
    RunPast(run, c, t, k, j);
    if Past(run[c], t, k, j) { c := CleansEveryEntry(run, c, t, k, j); }
  }

  lemma RunPast(run: seq<State>, c: nat, t: nat, k: Tag, j: nat)
    requires Run(run) && c + 1 < |run| && Past(run[c + 1], t, k, j)
    ensures Past(run[c], t, k, j) || Cleans(run[c], run[c + 1], t, k, j)
  {
    var u := RunNext(run, c);
    if u == t {
      InExecuteStep(run[c], run[c + 1], t, k);
      PastStep(run[c], run[c + 1], t, k, j);
    }
  }

  // ----- results -----

  lemma Returning(run: seq<State>, n: nat, t: nat, k: Tag, b: bool) returns (m: nat, es: seq<KEntry>)
    requires Run(run) && n < |run| && Returns(run[n], t, k, b)
    ensures m < n && ExecutedAt(run, m, t, k, es) && k !in run[m].g.ops
    ensures k in run[n].g.ops && run[n].g.ops[k].entries == es
  {
    m, es := Executed(run, n, t, k);
  }

  /** A call of `execute` with the entries es that returns true: in exactly one step p of the call all expected values
      are there and all new values are written at once.  It is called in step m and about to return in state n. */
  lemma ReturnsTrue(run: seq<State>, n: nat, t: nat, k: Tag) returns (m: nat, es: seq<KEntry>, p: nat)
    requires Run(run) && n < |run| && Returns(run[n], t, k, true)
    ensures ExecutedAt(run, m, t, k, es) && m < p < n && Commits(run[p].g, run[p + 1].g, k)
    ensures Matches(Abs(run[p].g), es) && Abs(run[p + 1].g) == Written(Abs(run[p].g), es)
    ensures forall q: nat :: q + 1 < |run| && Commits(run[q].g, run[q + 1].g, k) ==> q == p
  {
    m, es := Returning(run, n, t, k, true);
    ReturnTellsStatus(run, n, t, k, true);
    p := SuccessHasInstant(run, m, n, k);
    forall q: nat | q + 1 < |run| && Commits(run[q].g, run[q + 1].g, k) ensures q == p {
      if q < p { RunRely(run, q + 1, p, k); } else if p < q { RunRely(run, p + 1, q, k); }
    }
  }

  /** One that returns false: at an instant p of the call one of its words holds a plain value other than the expected
      one.  The call never takes effect. */
  lemma ReturnsFalse(run: seq<State>, n: nat, t: nat, k: Tag) returns (m: nat, es: seq<KEntry>, p: nat, i: nat)
    requires Run(run) && n < |run| && Returns(run[n], t, k, false)
    ensures ExecutedAt(run, m, t, k, es) && m < p < n && i < |es| && es[i].addr < |run[p].g.mem|
    ensures run[p].g.mem[es[i].addr].Val? && run[p].g.mem[es[i].addr].v != es[i].oldval
    ensures forall q: nat :: q + 1 < |run| ==> !Commits(run[q].g, run[q + 1].g, k)
  {
    m, es := Returning(run, n, t, k, false);
    p, i := ExecuteFalse(run, n, t, k);
    if p <= m { RunRely(run, p, m, k); }
    RunRely(run, p, n, k);
  }

  // ----- reading -----

  /** In this step thread t reads v at word a. */
  ghost predicate ReadsValue(s: State, s': State, t: nat, a: nat, v: nat) {
    && t < |s.th| && s.th[t].read == ReadOf(a) && t < |s'.th| && s'.th[t].read == Got(a, v)
    && a < |s.g.mem| && s.g.mem[a] == Val(v) && s'.g == s.g
  }

  lemma ReadingStep(g: Shared, T: Thread, t: nat, g': Shared, T': Thread)
    requires t < |g.kd| && t < |g.rd| && ThreadStep(g, T, t, g', T')
    ensures T'.read.ReadOf? ==> T.read == T'.read || T.read.NotReading?
    ensures T'.read.Got? ==>
              T.read == T'.read
              || (T.read == ReadOf(T'.read.a) && T'.read.a < |g.mem| && g.mem[T'.read.a] == Val(T'.read.v) && g' == g)
  {
    if T.stack != [] {
      HelpingStep(g, T, t, g', T');
      HelpingKeepsRead(g, T, t, g', T');
    }
  }

  lemma HelpingKeepsRead(g: Shared, T: Thread, t: nat, g': Shared, T': Thread)
    requires t < |g.rd| && (LockingStep(g, T, t, g', T') || FinishingStep(g, T, g', T') || SlotStep(g, T, g', T'))
    ensures T'.read == T.read
  {
    if LockingStep(g, T, t, g', T') { LockingKeepsRead(g, T, t, g', T'); }
  }

  lemma LockingKeepsRead(g: Shared, T: Thread, t: nat, g': Shared, T': Thread)
    requires t < |g.rd| && LockingStep(g, T, t, g', T')
    ensures T'.read == T.read
  {
  }

  lemma RunReads(run: seq<State>, j: nat, t: nat)
    requires Run(run) && j + 1 < |run| && t < |run[j + 1].th|
    ensures t < |run[j].th|
    ensures run[j + 1].th[t].read.ReadOf? ==> run[j].th[t].read == run[j + 1].th[t].read || run[j].th[t].read.NotReading?
    ensures run[j + 1].th[t].read.Got? ==>
              run[j].th[t].read == run[j + 1].th[t].read
              || ReadsValue(run[j], run[j + 1], t, run[j + 1].th[t].read.a, run[j + 1].th[t].read.v)
  {
    var u := RunNext(run, j);
    if u == t { ReadingStep(run[j].g, run[j].th[t], t, run[j + 1].g, run[j + 1].th[t]); }
  }

  lemma {:induction false} ReadBegins(run: seq<State>, n: nat, t: nat, a: nat) returns (m: nat)
    requires Run(run) && n < |run| && t < |run[n].th| && run[n].th[t].read == ReadOf(a)
    ensures m < n && t < |run[m].th| && run[m].th[t].read.NotReading?
    ensures forall l {:trigger run[l]} :: m < l <= n ==> t < |run[l].th| && run[l].th[t].read == ReadOf(a)
  {
    assert n > 0 by { assert Init(run[0]); }
    m := n - 1;
    RunReads(run, m, t);
    if run[m].th[t].read == ReadOf(a) { m := ReadBegins(run, m, t, a); }
  }

  /** A call of readPtr returns what its word stood for at an instant p of the call, whatever it had to help before.
      The thread was not reading in state m and is about to return in state n. */
  lemma {:induction false} ReadReturns(run: seq<State>, n: nat, t: nat) returns (m: nat, p: nat)
    requires Run(run) && n < |run| && t < |run[n].th| && run[n].th[t].read.Got?
    ensures m < p < n && t < |run[m].th| && run[m].th[t].read.NotReading?
    ensures forall l {:trigger run[l]} :: m < l <= p ==> t < |run[l].th| && run[l].th[t].read == ReadOf(run[n].th[t].read.a)
    ensures forall l {:trigger run[l]} :: p < l <= n ==> t < |run[l].th| && run[l].th[t].read == run[n].th[t].read
    ensures run[n].th[t].read.a < |run[p].g.mem| && Abs(run[p].g)[run[n].th[t].read.a] == run[n].th[t].read.v
  {
    assert n > 0 by { assert Init(run[0]); }
    var j := n - 1;
    RunReads(run, j, t);
    if run[j].th[t].read == run[n].th[t].read {
      m, p := ReadReturns(run, j, t);
    } else {
      p := j;
      m := ReadBegins(run, p, t, run[n].th[t].read.a);
    }
  }
}
