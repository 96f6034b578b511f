/** What calls of dcssPtr and dcssRead do with their arguments. */
module DcssCalls {
  import opened DcssModel
  import opened DcssProof
  import opened DcssTheorems

  // ----- arguments -----

  /** In step m thread t calls dcssPtr with the arguments b. */
  ghost predicate CalledAt(run: seq<State>, m: nat, t: nat, b: Body) {
    && m + 1 < |run| && t < |run[m].th| == |run[m + 1].th| && t < |run[m].g.desc|
    && New(run[m].g, run[m].th[t], t, run[m + 1].g, run[m + 1].th[t]) && run[m + 1].th[t].pc == Fill(b)
  }

  predicate InDcss(pc: Pc) { pc.Fill? || pc.TryCas? || pc.OwnHelp? || pc.Done? }

  /** In state s thread t is in a call of dcssPtr with the arguments b that will use or uses the tag k. */
  ghost predicate Pursues(s: State, t: nat, k: Tag, b: Body) {
    && t < |s.th| == |s.g.desc| && k.tid == t && InDcss(s.th[t].pc)
    && if s.th[t].pc.Fill? then s.th[t].pc.want == b && k.seqno == s.g.desc[t].seqno + 1
       else k.seqno == s.g.desc[t].seqno && k in s.g.ops && s.g.ops[k].body == b
  }

  lemma PursuesStep(s: State, s': State, t: nat, k: Tag, b: Body)
    requires Inv(s) && Next(s, s') && Rely(s.g, s'.g) && Pursues(s', t, k, b)
    ensures t < |s.th| == |s.g.desc|
    ensures Pursues(s, t, k, b)
            || (New(s.g, s.th[t], t, s'.g, s'.th[t]) && s'.th[t].pc == Fill(b) && k == Tag(t, s.g.desc[t].seqno + 2))
  {
    if !StoreStep(s, s') {
      var u: nat :| StepOf(s, s', u);
      assert ThreadOk(s.g, u, s.th[u]);
      StepKeeps(s.g, s.th[u], u, s'.g, s'.th[u]);
      if u == t { OwnPursues(s, s', t, k, b); } else { OtherPursues(s, s', t, k, b); }
    }
  }

  lemma OtherPursues(s: State, s': State, t: nat, k: Tag, b: Body)
    requires Rely(s.g, s'.g) && Untouched(s.g, s'.g, t) && t < |s.th| == |s'.th| == |s.g.desc| && s'.th[t] == s.th[t]
    requires Pursues(s', t, k, b)
    ensures Pursues(s, t, k, b)
  {
    if k in s.g.ops { assert OpEvolves(s.g, s'.g, k); }
  }

  lemma OwnPursues(s: State, s': State, t: nat, k: Tag, b: Body)
    requires Rely(s.g, s'.g) && StepOf(s, s', t) && ThreadOk(s.g, t, s.th[t]) && Pursues(s', t, k, b)
    ensures Pursues(s, t, k, b)
            || (New(s.g, s.th[t], t, s'.g, s'.th[t]) && s'.th[t].pc == Fill(b) && k == Tag(t, s.g.desc[t].seqno + 2))
  {
    if k in s.g.ops { assert OpEvolves(s.g, s'.g, k); }
  }

  /** Whatever a thread is doing in dcssPtr, it was called to do. */
  lemma {:induction false} Called(run: seq<State>, n: nat, t: nat, k: Tag, b: Body) returns (m: nat)
    requires Run(run) && n < |run| && Pursues(run[n], t, k, b)
    ensures m < n && CalledAt(run, m, t, b) && k == Tag(t, run[m].g.desc[t].seqno + 2) && k !in run[m].g.ops
    ensures forall l {:trigger run[l]} :: m < l <= n ==> Pursues(run[l], t, k, b)
  {
    assert n > 0 by { assert Init(run[0]); }
    m := n - 1;
    RunStep(run, m);
    PursuesStep(run[m], run[n], t, k, b);
    if Pursues(run[m], t, k, b) {
      m := Called(run, m, t, k, b);
    } else {
      assert k !in run[m].g.ops by { assert k in run[m].g.ops ==> OpOk(run[m].g, k); }
    }
  }

  lemma ReturnsPursued(run: seq<State>, n: nat, t: nat, k: Tag, r: Result)
    requires Run(run) && n < |run| && Returns(run[n], t, k, r)
    ensures k in run[n].g.ops && Pursues(run[n], t, k, run[n].g.ops[k].body)
  {
    RunInv(run, n);
    assert ThreadOk(run[n].g, t, run[n].th[t]);
  }

  /** In state s the second word holds the tag of a call with the arguments b that is undecided. */
  ghost predicate Locked(s: State, k: Tag, b: Body) {
    && k in s.g.ops && s.g.ops[k].body == b && s.g.ops[k].status.Undecided?
    && b.addr1 < |s.g.mem| && b.addr2 < |s.g.mem| && s.g.mem[b.addr2] == DcssTag(k)
  }

  /** A call dcss(addr1, old1, addr2, old2, new2) that returns success: in exactly one step p of the call the second
      word goes from old2 to new2 and nothing else changes, and at an instant q of the call, no later, the first
      word holds old1 while the second is locked.  It is called in step m and about to return in state n. */
  lemma Succeeds(run: seq<State>, n: nat, t: nat, k: Tag) returns (m: nat, b: Body, q: nat, p: nat)
    requires Run(run) && n < |run| && Returns(run[n], t, k, Success)
    ensures CalledAt(run, m, t, b) && m < q <= p < n
    ensures Locked(run[q], k, b) && run[q].g.mem[b.addr1] == Val(b.old1)
    ensures Locked(run[p], k, b) && Abs(run[p].g)[b.addr2] == b.old2
    ensures Abs(run[p + 1].g) == Abs(run[p].g)[b.addr2 := b.new2]
    ensures forall i: nat :: i + 1 < |run| && Commits(run[i].g, run[i + 1].g, k) ==> i == p
  {
    ReturnsPursued(run, n, t, k, Success);
    b := run[n].g.ops[k].body;
    m := Called(run, n, t, k, b);
    p, q := DcssSuccess(run, m, n, t, k);
    RunInv(run, p);
    assert OpOk(run[p].g, k);
  }

  /** One that reports a failure at the first word with val1: while the second word was locked the first one held
      something other than old1, at an instant q of the call; at an instant p of the call the caller itself read
      val1 there.  The call never takes effect. */
  lemma FailsAtFirst(run: seq<State>, n: nat, t: nat, k: Tag, val1: Word) returns (m: nat, b: Body, q: nat, p: nat)
    requires Run(run) && n < |run| && Returns(run[n], t, k, FailedAddr1(val1))
    ensures CalledAt(run, m, t, b) && m < q < n && m < p < n
    ensures Locked(run[q], k, b) && run[q].g.mem[b.addr1] != Val(b.old1)
    ensures b.addr1 < |run[p].g.mem| && run[p].g.mem[b.addr1] == val1 && Reads(run[p], t, k, val1)
    ensures forall i: nat :: i + 1 < |run| ==> !Commits(run[i].g, run[i + 1].g, k)
  {
    ReturnsPursued(run, n, t, k, FailedAddr1(val1));
    b := run[n].g.ops[k].body;
    m := Called(run, n, t, k, b);
    q, p := DcssFailedAddr1(run, n, t, k, val1);
    if q <= m { RunEvolves(run, q, m, k); }
    if p <= m { RunEvolves(run, p, m, k); }
    RunEvolves(run, q, n, k);
    RunEvolves(run, p, n, k);
    forall i: nat | i + 1 < |run| ensures !Commits(run[i].g, run[i + 1].g, k) {
      DcssCallFails(run, n, t, k, FailedAddr1(val1), i);
    }
  }

  /** One that reports a failure at the second word with r: that is what the word held at an instant p of the call,
      and not old2.  The call never takes effect, and its tag never was in memory. */
  lemma FailsAtSecond(run: seq<State>, n: nat, t: nat, k: Tag, r: nat) returns (m: nat, b: Body, p: nat)
    requires Run(run) && n < |run| && Returns(run[n], t, k, FailedAddr2(r))
    ensures CalledAt(run, m, t, b) && m < p < n
    ensures b.addr2 < |run[p].g.mem| && run[p].g.mem[b.addr2] == Val(r) && r != b.old2
    ensures k in run[n].g.ops && !run[n].g.ops[k].installed
    ensures forall i: nat :: i + 1 < |run| ==> !Commits(run[i].g, run[i + 1].g, k)
  {
    ReturnsPursued(run, n, t, k, FailedAddr2(r));
    b := run[n].g.ops[k].body;
    m := Called(run, n, t, k, b);
    p := DcssFailedAddr2(run, n, t, k, r);
    if p <= m { RunEvolves(run, p, m, k); }
    RunEvolves(run, p, n, k);
    forall i: nat | i + 1 < |run| ensures !Commits(run[i].g, run[i + 1].g, k) {
      DcssCallFails(run, n, t, k, FailedAddr2(r), i);
    }
  }

  /** No call returns anything else. */
  lemma NeverIgnored(run: seq<State>, n: nat, t: nat, k: Tag, r: Result)
    requires Run(run) && n < |run| && Returns(run[n], t, k, r)
    ensures r.Success? || r.FailedAddr1? || r.FailedAddr2?
  {
    RunInv(run, n);
    assert ThreadOk(run[n].g, t, run[n].th[t]);
  }

  // ----- reading -----

  /** In state s thread t is in a call of dcssRead for word a. */
  ghost predicate ReadsWord(s: State, t: nat, a: nat) {
    t < |s.th| && s.th[t].pc == Read(a)
  }

  /** In this step thread t reads v at word a. */
  ghost predicate ReadsValue(s: State, s': State, t: nat, a: nat, v: nat) {
    && ReadsWord(s, t, a) && t < |s'.th| && s'.th[t].pc == Got(a, v)
    && a < |s.g.mem| && s.g.mem[a] == Val(v) && s'.g == s.g
  }

  lemma ReadingStep(s: State, s': State, t: nat, a: nat)
    requires Next(s, s') && t < |s'.th| && (s'.th[t].pc == Read(a) || (s'.th[t].pc.Got? && s'.th[t].pc.a == a))
    ensures t < |s.th|
    ensures s'.th[t].pc == Read(a) ==> s.th[t].pc == Read(a) || s.th[t].pc.Idle?
    ensures s'.th[t].pc.Got? ==> s.th[t].pc == s'.th[t].pc || ReadsValue(s, s', t, a, s'.th[t].pc.v)
  {
    if !StoreStep(s, s') {
      var u: nat :| StepOf(s, s', u);
      if u == t { OwnReadingStep(s, s', t, a); }
    }
  }

  lemma OwnReadingStep(s: State, s': State, t: nat, a: nat)
    requires StepOf(s, s', t) && (s'.th[t].pc == Read(a) || (s'.th[t].pc.Got? && s'.th[t].pc.a == a))
    ensures s'.th[t].pc == Read(a) ==> s.th[t].pc == Read(a) || s.th[t].pc.Idle?
    ensures s'.th[t].pc.Got? ==> s.th[t].pc == s'.th[t].pc || ReadsValue(s, s', t, a, s'.th[t].pc.v)
  {
  }

  lemma {:induction false} ReadBegins(run: seq<State>, n: nat, t: nat, a: nat) returns (m: nat)
    requires Run(run) && n < |run| && ReadsWord(run[n], t, a)
    ensures m < n && t < |run[m].th| && run[m].th[t].pc.Idle?
    ensures forall l {:trigger run[l]} :: m < l <= n ==> ReadsWord(run[l], t, a)
  {
    assert n > 0 by { assert Init(run[0]); }
    m := n - 1;
    assert Next(run[m], run[m + 1]);
    ReadingStep(run[m], run[n], t, a);
    if ReadsWord(run[m], t, a) { m := ReadBegins(run, m, t, a); }
  }

  /** A call of dcssRead returns what its word stood for at an instant p of the call.  The thread was idle in state
      m and is about to return in state n. */
  lemma {:induction false} ReadReturns(run: seq<State>, n: nat, t: nat) returns (m: nat, p: nat)
    requires Run(run) && n < |run| && t < |run[n].th| && run[n].th[t].pc.Got?
    ensures m < p < n && t < |run[m].th| && run[m].th[t].pc.Idle?
    ensures forall l {:trigger run[l]} :: m < l <= p ==> ReadsWord(run[l], t, run[n].th[t].pc.a)
    ensures forall l {:trigger run[l]} :: p < l <= n ==> t < |run[l].th| && run[l].th[t].pc == run[n].th[t].pc
    ensures run[n].th[t].pc.a < |run[p].g.mem| && Abs(run[p].g)[run[n].th[t].pc.a] == run[n].th[t].pc.v
  {
    assert n > 0 by { assert Init(run[0]); }
    var j := n - 1;
    assert Next(run[j], run[j + 1]);
    ReadingStep(run[j], run[n], t, run[n].th[t].pc.a);
    if run[j].th[t].pc == run[n].th[t].pc {
      m, p := ReadReturns(run, j, t);
    } else {
      p := j;
      m := ReadBegins(run, p, t, run[n].th[t].pc.a);
    }
  }
}
