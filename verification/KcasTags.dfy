/** Whether the tag of an operation can come back after its call has cleaned up. */
module KcasTags {
  import opened KcasModel
  import opened KcasInvariant
  import opened KcasSteps
  import opened KcasTheorems
  import opened KcasCalls

  predicate Decided(g: Shared, k: Tag) { k in g.ops && !g.ops[k].status.Undecided? }

  /** Word a does not hold the tag of k. */
  predicate Away(g: Shared, k: Tag, a: nat) { a < |g.mem| && g.mem[a] != KcasTag(k) }

  /** Thread u has read that k is undecided and is about to replace the RDCSS tag at word a by that of k. */
  ghost predicate AboutToInstall(s: State, u: nat, k: Tag, a: nat) {
    && u < |s.th| && s.th[u].slot.RFinish? && s.th[u].slot.undecided
    && s.th[u].slot.body.new2 == k && s.th[u].slot.body.addr2 == a
    && a < |s.g.mem| && s.g.mem[a] == RdcssTag(s.th[u].slot.tag)
  }

  ghost predicate Pending(s: State, k: Tag, a: nat) {
    exists u: nat :: AboutToInstall(s, u, k, a)
  }

  // ----- the tag comes back only if it is pending -----

  lemma InstallsPending(s: State, s': State, k: Tag, a: nat)
    requires Inv(s) && Next(s, s') && Away(s.g, k, a) && !Away(s'.g, k, a)
    ensures Pending(s, k, a)
  {
    NextKeepsInv(s, s');
    var u: nat :| StepOf(s, s', u);
    if DoRFinish(s.g, s.th[u], s'.g, s'.th[u]) {
      assert AboutToInstall(s, u, k, a);
    } else {
      OnlyFinishInstalls(s.g, s.th[u], u, s'.g, s'.th[u], k, a);
    }
  }

  /** No helper finds a decided operation undecided, and no RDCSS tag is installed twice. */
  lemma PendingBefore(s: State, s': State, k: Tag, a: nat)
    requires Inv(s) && Next(s, s') && Decided(s.g, k) && Pending(s', k, a)
    ensures Pending(s, k, a)
  {
    NextKeepsInv(s, s');
    var w: nat :| AboutToInstall(s', w, k, a);
    var u: nat :| StepOf(s, s', u);
    if u == w { NoneReadsUndecided(s.g, s.th[u], u, s'.g, s'.th[u], k); } else { InstalledOnce(s, s', w, k, a); }
  }

  lemma InstalledOnce(s: State, s': State, w: nat, k: Tag, a: nat)
    requires Inv(s) && Rely(s.g, s'.g) && AboutToInstall(s', w, k, a) && w < |s.th| && s.th[w].slot == s'.th[w].slot
    ensures AboutToInstall(s, w, k, a)
  {
    var r := s.th[w].slot.tag;
    assert ThreadOk(s.g, w, s.th[w]);
    assert RopOk(s.g, r) && RopEvolves(s.g, s'.g, r);
  }

  lemma NoneReadsUndecided(g: Shared, T: Thread, t: nat, g': Shared, T': Thread, k: Tag)
    requires Before(g, t, T) && ThreadStep(g, T, t, g', T') && Decided(g, k)
    ensures T'.slot.RFinish? && T'.slot.body.new2 == k ==> !T'.slot.undecided
  {
    if T'.slot.RFinish? && T'.slot.body.new2 == k {
      OnlyReadFinishes(g, T, t, g', T');
      DecidedIsRead(g, T, t, g', T', k);
    }
  }

  lemma DecidedIsRead(g: Shared, T: Thread, t: nat, g': Shared, T': Thread, k: Tag)
    requires Before(g, t, T) && DoRRead(g, T, g', T') && Decided(g, k) && T'.slot.body.new2 == k
    ensures !T'.slot.undecided
  {
    assert RopOk(g, T.slot.tag) && OpOk(g, k);
  }

  lemma OnlyReadFinishes(g: Shared, T: Thread, t: nat, g': Shared, T': Thread)
    requires t < |g.kd| && t < |g.rd| && ThreadStep(g, T, t, g', T') && T'.slot.RFinish?
    ensures DoRRead(g, T, g', T')
  {
  }

  /** Once an operation is decided and its tag is not at word a and not pending there, it never is again. */
  lemma {:induction false} StaysAway(run: seq<State>, m: nat, n: nat, k: Tag, a: nat)
    requires Run(run) && m <= n < |run| && Decided(run[m].g, k) && Away(run[m].g, k, a) && !Pending(run[m], k, a)
    ensures Decided(run[n].g, k) && Away(run[n].g, k, a) && !Pending(run[n], k, a)
    decreases n - m
  {
    if m < n {
      StaysAway(run, m, n - 1, k, a);
      StaysAwayNext(run, n - 1, k, a);
    }
  }

  lemma StaysAwayNext(run: seq<State>, p: nat, k: Tag, a: nat)
    requires Run(run) && p + 1 < |run| && Decided(run[p].g, k) && Away(run[p].g, k, a) && !Pending(run[p], k, a)
    ensures Decided(run[p + 1].g, k) && Away(run[p + 1].g, k, a) && !Pending(run[p + 1], k, a)
  {
    var s, s' := run[p], run[p + 1];
    RunInv(run, p);
    assert Next(s, s');
    RunRely(run, p, p + 1, k);
    if !Away(s'.g, k, a) { InstallsPending(s, s', k, a); }
    if Pending(s', k, a) { PendingBefore(s, s', k, a); }
  }

  /** A run that goes on with one step of thread u. */
  lemma Extended(run: seq<State>, s': State, u: nat)
    requires Run(run) && StepOf(run[|run| - 1], s', u)
    ensures Run(run + [s'])
  {
    var more := run + [s'];
    forall n | 0 <= n < |more| - 1 ensures Next(more[n], more[n + 1]) {
      if n < |run| - 1 { assert Next(run[n], run[n + 1]); }
    }
  }

  /** The run goes on to a state in which word a holds the tag of k. */
  ghost predicate ComesBack(run: seq<State>, more: seq<State>, k: Tag, a: nat) {
    Run(run + more) && more != [] && !Away(more[|more| - 1].g, k, a)
  }

  /** The exact condition: the tag of a decided operation that is not at a word can come back to it if and only if
      some thread is about to bring it back. */
  lemma CanComeBack(run: seq<State>, k: Tag, a: nat)
    requires Run(run) && Decided(run[|run| - 1].g, k) && Away(run[|run| - 1].g, k, a)
    ensures (exists more :: ComesBack(run, more, k, a)) <==> Pending(run[|run| - 1], k, a)
  {
    var n := |run| - 1;
    if more :| ComesBack(run, more, k, a) {
      var all := run + more;
      assert all[n] == run[n] && all[|all| - 1] == more[|more| - 1];
      if !Pending(run[n], k, a) { StaysAway(all, n, |all| - 1, k, a); }
    }
    if Pending(run[n], k, a) {
      var u: nat :| AboutToInstall(run[n], u, k, a);
      var s' := Reinstalls(run, u, k, a);
      assert ComesBack(run, [s'], k, a);
    }
  }

  lemma Reinstalls(run: seq<State>, u: nat, k: Tag, a: nat) returns (s': State)
    requires Run(run) && AboutToInstall(run[|run| - 1], u, k, a)
    ensures Run(run + [s']) && !Away(s'.g, k, a)
  {
    var s := run[|run| - 1];
    RunInv(run, |run| - 1);
    s' := State(s.g.(mem := s.g.mem[a := KcasTag(k)]), s.th[u := s.th[u].(slot := Free)]);
    assert DoRFinish(s.g, s.th[u], s'.g, s'.th[u]);
    Extended(run, s', u);
  }

  // ----- after a call -----

  /** What the owner has cleaned is clean. */
  lemma CleansAway(s: State, s': State, t: nat, k: Tag, j: nat)
    requires Inv(s) && Inv(s') && Rely(s.g, s'.g) && Cleans(s, s', t, k, j)
    ensures Decided(s'.g, k) && j < |s'.g.ops[k].entries| && s'.g.ops[k].entries == s.th[t].stack[0].entries
    ensures Away(s'.g, k, s'.g.ops[k].entries[j].addr)
  {
    assert FrameOk(s.g, s.th[t].stack[0]) && OpEvolves(s.g, s'.g, k);
  }

  /** A word that is no address of an operation never holds its tag. */
  lemma OnlyItsAddresses(s: State, k: Tag, a: nat)
    requires Inv(s) && k in s.g.ops && a < |s.g.mem| && !HasAddr(s.g.ops[k].entries, a)
    ensures Away(s.g, k, a)
  {
    assert WordOk(s.g, a);
  }

  lemma SucceededNotPending(s: State, k: Tag, a: nat)
    requires Inv(s) && k in s.g.ops && s.g.ops[k].status.Succeeded?
    ensures !Pending(s, k, a)
  {
    forall u: nat ensures !AboutToInstall(s, u, k, a) {
      if u < |s.th| && s.th[u].slot.RFinish? {
        assert SlotOk(s.g, s.th[u].slot) && RopOk(s.g, s.th[u].slot.tag);
      }
    }
  }

  /** Thread t, about to return from operation k, cleaned word a in step c. */
  ghost predicate CleanedAt(run: seq<State>, t: nat, k: Tag, a: nat, c: nat) {
    c + 1 < |run| && Decided(run[c + 1].g, k) && Away(run[c + 1].g, k, a) && InExecute(run[c + 1], t, k)
  }

  lemma ReturnCleaned(run: seq<State>, n: nat, t: nat, k: Tag, b: bool, a: nat) returns (c: nat)
    requires Run(run) && n < |run| && Returns(run[n], t, k, b)
    requires k in run[n].g.ops && HasAddr(run[n].g.ops[k].entries, a)
    ensures c < n && CleanedAt(run, t, k, a, c)
  {
    var j := IndexOf(run[n].g.ops[k].entries, a);
    RunInv(run, n);
    assert FrameOk(run[n].g, run[n].th[t].stack[0]);
    c := CleansEveryEntry(run, n, t, k, j);
    assert Past(run[c + 1], t, k, j);
    RunCleansAway(run, c, t, k, j);
    RunRely(run, c + 1, n, k);
  }

  lemma RunCleansAway(run: seq<State>, c: nat, t: nat, k: Tag, j: nat)
    requires Run(run) && c + 1 < |run| && Cleans(run[c], run[c + 1], t, k, j)
    ensures Decided(run[c + 1].g, k) && j < |run[c + 1].g.ops[k].entries|
    ensures Away(run[c + 1].g, k, run[c + 1].g.ops[k].entries[j].addr)
  {
    RunInv(run, c);
    RunInv(run, c + 1);
    assert Next(run[c], run[c + 1]);
    NextKeepsInv(run[c], run[c + 1]);
    CleansAway(run[c], run[c + 1], t, k, j);
  }

  /** After a call that returns true no word ever holds its tag again. */
  lemma TrueLeavesNoTag(run: seq<State>, n: nat, l: nat, t: nat, k: Tag, a: nat)
    requires Run(run) && n <= l < |run| && Returns(run[n], t, k, true) && a < |run[l].g.mem|
    ensures Away(run[l].g, k, a)
  {
    ReturnTellsStatus(run, n, t, k, true);
    RunRely(run, n, l, k);
    RunInv(run, l);
    if HasAddr(run[n].g.ops[k].entries, a) {
      var c := ReturnCleaned(run, n, t, k, true, a);
      RunInv(run, c + 1);
      RunRely(run, c + 1, n, k);
      SucceededNotPending(run[c + 1], k, a);
      StaysAway(run, c + 1, l, k, a);
    } else {
      OnlyItsAddresses(run[l], k, a);
    }
  }

  /** After a call that returns false a word can hold its tag only if, when the owner had cleaned that word, some
      thread was about to put it back. */
  lemma FalseLeavesNoTag(run: seq<State>, n: nat, l: nat, t: nat, k: Tag, a: nat) returns (c: nat)
    requires Run(run) && n <= l < |run| && Returns(run[n], t, k, false) && a < |run[l].g.mem| && !Away(run[l].g, k, a)
    ensures c < n && CleanedAt(run, t, k, a, c) && Pending(run[c + 1], k, a)
  {
    ReturnTellsStatus(run, n, t, k, false);
    RunRely(run, n, l, k);
    RunInv(run, l);
    if !HasAddr(run[n].g.ops[k].entries, a) { OnlyItsAddresses(run[l], k, a); }
    c := ReturnCleaned(run, n, t, k, false, a);
    if !Pending(run[c + 1], k, a) { StaysAway(run, c + 1, l, k, a); }
  }

  // ----- a tag that stays for ever -----

  /** Word a holds the tag of an operation whose owner has moved on, and nobody is past copying its descriptor. */
  ghost predicate Stuck(s: State, k: Tag, a: nat) {
    && k.tid < |s.g.kd| && k.seqno < s.g.kd[k.tid].seqno && a < |s.g.mem| && s.g.mem[a] == KcasTag(k)
    && forall u: nat, d: nat :: u < |s.th| && d < |s.th[u].stack| && s.th[u].stack[d].tag == k ==> s.th[u].stack[d].pc.Copy?
  }

  lemma StuckStep(s: State, s': State, k: Tag, a: nat)
    requires Inv(s) && Next(s, s') && Stuck(s, k, a)
    ensures Stuck(s', k, a)
  {
    NextKeepsInv(s, s');
    var t: nat :| StepOf(s, s', t);
    StuckWord(s.g, s.th[t], t, s'.g, s'.th[t], k, a);
    StuckFrames(s.g, s.th[t], t, s'.g, s'.th[t], k);
  }

  /** No frame of T is past copying the descriptor of k. */
  ghost predicate OnlyCopies(T: Thread, k: Tag) {
    forall d: nat :: d < |T.stack| && T.stack[d].tag == k ==> T.stack[d].pc.Copy?
  }

  lemma StuckWord(g: Shared, T: Thread, t: nat, g': Shared, T': Thread, k: Tag, a: nat)
    requires t < |g.kd| && t < |g.rd| && ThreadStep(g, T, t, g', T') && OnlyCopies(T, k)
    requires a < |g.mem| && g.mem[a] == KcasTag(k)
    ensures a < |g'.mem| && g'.mem[a] == KcasTag(k)
  {
    if T.stack != [] {
      HelpingStep(g, T, t, g', T');
      if LockingStep(g, T, t, g', T') { LockingKeepsTags(g, T, t, g', T', k, a); }
    }
  }

  lemma LockingKeepsTags(g: Shared, T: Thread, t: nat, g': Shared, T': Thread, k: Tag, a: nat)
    requires t < |g.rd| && LockingStep(g, T, t, g', T') && a < |g.mem| && g.mem[a] == KcasTag(k)
    ensures a < |g'.mem| && g'.mem[a] == KcasTag(k)
  {
  }

  lemma StuckFrames(g: Shared, T: Thread, t: nat, g': Shared, T': Thread, k: Tag)
    requires t < |g.kd| && t < |g.rd| && ThreadStep(g, T, t, g', T') && OnlyCopies(T, k)
    requires k.tid < |g.kd| && k.seqno < g.kd[k.tid].seqno
    ensures OnlyCopies(T', k)
  {
    if T.stack != [] {
      HelpingStep(g, T, t, g', T');
      if LockingStep(g, T, t, g', T') { LockingOnlyCopies(g, T, t, g', T', k); }
      else if FinishingStep(g, T, g', T') { FinishingOnlyCopies(g, T, g', T', k); }
      else { SlotKeepsStack(g, T, g', T'); }
    }
  }

  lemma LockingOnlyCopies(g: Shared, T: Thread, t: nat, g': Shared, T': Thread, k: Tag)
    requires t < |g.rd| && LockingStep(g, T, t, g', T') && OnlyCopies(T, k)
    requires k.tid < |g.kd| && k.seqno < g.kd[k.tid].seqno
    ensures OnlyCopies(T', k)
  {
    if Validate(g, T, g', T') { ValidateOnlyCopies(g, T, g', T', k); } else { LaterOnlyCopies(g, T, t, g', T', k); }
  }

  lemma ValidateOnlyCopies(g: Shared, T: Thread, g': Shared, T': Thread, k: Tag)
    requires Validate(g, T, g', T') && OnlyCopies(T, k) && k.tid < |g.kd| && k.seqno < g.kd[k.tid].seqno
    ensures OnlyCopies(T', k)
  {
  }

  lemma LaterOnlyCopies(g: Shared, T: Thread, t: nat, g': Shared, T': Thread, k: Tag)
    requires t < |g.rd| && LockingStep(g, T, t, g', T') && !Validate(g, T, g', T') && OnlyCopies(T, k)
    ensures OnlyCopies(T', k)
  {
    if Top(T).pc.TryCas? { TryCasOnlyCopies(g, T, t, g', T', k); } else { GotoOnlyCopies(g, T, t, g', T', k); }
  }

  lemma TryCasOnlyCopies(g: Shared, T: Thread, t: nat, g': Shared, T': Thread, k: Tag)
    requires t < |g.rd| && T.stack != [] && DoTryCas(g, T, t, g', T') && OnlyCopies(T, k)
    ensures OnlyCopies(T', k)
  {
  }

  lemma GotoOnlyCopies(g: Shared, T: Thread, t: nat, g': Shared, T': Thread, k: Tag)
    requires t < |g.rd| && LockingStep(g, T, t, g', T') && !Validate(g, T, g', T') && OnlyCopies(T, k)
    requires !DoTryCas(g, T, t, g', T')
    ensures OnlyCopies(T', k)
  {
  }

  lemma FinishingOnlyCopies(g: Shared, T: Thread, g': Shared, T': Thread, k: Tag)
    requires FinishingStep(g, T, g', T') && OnlyCopies(T, k)
    ensures OnlyCopies(T', k)
  {
  }

  /** In that case the tag stays for ever, no later operation at that word succeeds, and no read of it returns. */
  lemma {:induction false} StuckForEver(run: seq<State>, m: nat, n: nat, k: Tag, a: nat)
    requires Run(run) && m <= n < |run| && Stuck(run[m], k, a)
    ensures Stuck(run[n], k, a)
    decreases n - m
  {
    if m < n {
      var p := n - 1;
      StuckForEver(run, m, p, k, a);
      RunInv(run, p);
      assert Next(run[p], run[p + 1]);
      StuckStep(run[p], run[n], k, a);
    }
  }

  lemma NoneSucceedsAtStuck(run: seq<State>, m: nat, p: nat, k: Tag, a: nat, k': Tag)
    requires Run(run) && m <= p && p + 1 < |run| && Stuck(run[m], k, a) && k' in run[p].g.ops && k' != k
    requires HasAddr(run[p].g.ops[k'].entries, a)
    ensures !Commits(run[p].g, run[p + 1].g, k')
  {
    StuckForEver(run, m, p + 1, k, a);
    if Commits(run[p].g, run[p + 1].g, k') {
      SuccessHoldsAllAddresses(run, p, k', IndexOf(run[p].g.ops[k'].entries, a));
      RunRely(run, p, p + 1, k');
    }
  }

  lemma {:induction false} NoReadReturnsAtStuck(run: seq<State>, m: nat, n: nat, k: Tag, a: nat, t: nat)
    requires Run(run) && m <= n < |run| && Stuck(run[m], k, a) && t < |run[m].th| && run[m].th[t].read == ReadOf(a)
    ensures t < |run[n].th| && run[n].th[t].read == ReadOf(a)
    decreases n - m
  {
    if m < n {
      var p := n - 1;
      NoReadReturnsAtStuck(run, m, p, k, a, t);
      StuckForEver(run, m, p, k, a);
      var u := RunNext(run, p);
      if u == t { ReadStays(run[p].g, run[p].th[t], t, run[n].g, run[n].th[t], a); }
    }
  }

  lemma ReadStays(g: Shared, T: Thread, t: nat, g': Shared, T': Thread, a: nat)
    requires t < |g.kd| && t < |g.rd| && ThreadStep(g, T, t, g', T') && T.read == ReadOf(a)
    requires a < |g.mem| && g.mem[a].KcasTag?
    ensures T'.read == ReadOf(a)
  {
  }
}
