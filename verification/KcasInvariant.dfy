/**
 The inductive invariant of the KCAS machine.

 The proof is by rely and guarantee.  `Good` speaks of shared memory alone.  `Rely` says what any
 step may do to it.  What a thread knows at its program point (`FrameOk`, `SlotOk`) is stable under
 `Rely`, so it survives the steps of every other thread.
 */
module KcasInvariant {
  import opened KcasModel

  // ----- abstract memory -----

  function IndexOf(es: seq<KEntry>, a: nat): (i: nat)
    ensures i <= |es|
    ensures i < |es| ==> es[i].addr == a
    ensures i == |es| ==> forall j :: 0 <= j < |es| ==> es[j].addr != a
  {
    if es == [] then 0 else if es[0].addr == a then 0 else 1 + IndexOf(es[1..], a)
  }

  predicate HasAddr(es: seq<KEntry>, a: nat) {
    IndexOf(es, a) < |es|
  }

  function TagValue(op: Op, a: nat): nat {
    var i := IndexOf(op.entries, a);
    if i == |op.entries| then 0
    else if op.status.Succeeded? then op.entries[i].newval
    else op.entries[i].oldval
  }

  function AbsWord(g: Shared, w: Word, a: nat): nat {
    match w
    case Val(v) => v
    case RdcssTag(r) => if r in g.rops then g.rops[r].body.old2 else 0
    case KcasTag(k) => if k in g.ops then TagValue(g.ops[k], a) else 0
  }

  /** The value a word stands for: a plain word its value, an RDCSS tag the value it displaced, a
      KCAS tag the new value once its operation succeeded and the old one otherwise. */
  function Abs(g: Shared): seq<nat> {
    seq(|g.mem|, (a: nat) requires a < |g.mem| => AbsWord(g, g.mem[a], a))
  }

  // ----- shared memory -----

  predicate Holds(g: Shared, k: Tag, j: nat) {
    && k in g.ops && j < |g.ops[k].entries|
    && g.ops[k].entries[j].addr < |g.mem|
    && g.mem[g.ops[k].entries[j].addr] == KcasTag(k)
  }

  /** Entries below i hold the tag, as long as the operation is undecided. */
  ghost predicate Passed(g: Shared, k: Tag, i: nat) {
    && k in g.ops && i <= |g.ops[k].entries|
    && (g.ops[k].status.Undecided? ==> forall j: nat :: j < i ==> Holds(g, k, j))
  }

  ghost predicate OpOk(g: Shared, k: Tag)
    requires k in g.ops
  {
    var op := g.ops[k];
    && k.tid < |g.kd| && k.seqno <= g.kd[k.tid].seqno
    && ProperEntries(op.entries, |g.mem|)
    && (k.seqno == g.kd[k.tid].seqno ==> g.kd[k.tid].entries == op.entries && g.kd[k.tid].state == op.status)
    && (k.seqno < g.kd[k.tid].seqno ==> !op.status.Undecided?)
    && (op.status.Failed? ==> op.contradicted)
  }

  ghost predicate RopOk(g: Shared, r: Tag)
    requires r in g.rops
  {
    var b := g.rops[r].body;
    var i := g.rops[r].index;
    && r.tid < |g.rd| && r.seqno <= g.rd[r.tid].seqno
    && (r.seqno == g.rd[r.tid].seqno ==> g.rd[r.tid].body == b)
    && b.old1 in g.ops && b.new2 == b.old1 && b.addr1 == b.old1.tid
    && i < |g.ops[b.old1].entries|
    && b.addr2 == g.ops[b.old1].entries[i].addr && b.old2 == g.ops[b.old1].entries[i].oldval
    && b.addr2 < |g.mem|
    && Passed(g, b.old1, i)
    && (g.rops[r].installed && g.ops[b.old1].status.Undecided? && g.mem[b.addr2] != RdcssTag(r) ==> Holds(g, b.old1, i))
  }

  ghost predicate WordOk(g: Shared, a: nat)
    requires a < |g.mem|
  {
    match g.mem[a]
    case Val(_) => true
    case RdcssTag(r) => r in g.rops && g.rops[r].installed && g.rops[r].body.addr2 == a
    case KcasTag(k) => k in g.ops && HasAddr(g.ops[k].entries, a) && Passed(g, k, 1)
  }

  ghost predicate Good(g: Shared) {
    && (forall k {:trigger OpOk(g, k)} :: k in g.ops ==> OpOk(g, k))
    && (forall r {:trigger RopOk(g, r)} :: r in g.rops ==> RopOk(g, r))
    && (forall a: nat {:trigger WordOk(g, a)} :: a < |g.mem| ==> WordOk(g, a))
  }

  // ----- what any step may do -----

  ghost predicate OpEvolves(g: Shared, g': Shared, k: Tag)
    requires k in g.ops
  {
    && k in g'.ops && g'.ops[k].entries == g.ops[k].entries
    && (!g.ops[k].status.Undecided? ==> g'.ops[k].status == g.ops[k].status)
    && (g.ops[k].contradicted ==> g'.ops[k].contradicted)
    && (g.ops[k].status.Undecided? && g'.ops[k].status.Succeeded? ==>
          forall j: nat :: j < |g.ops[k].entries| ==> Holds(g', k, j))
    && (forall j: nat :: Holds(g, k, j) && g'.ops[k].status.Undecided? ==> Holds(g', k, j))
  }

  ghost predicate RopEvolves(g: Shared, g': Shared, r: Tag)
    requires r in g.rops
  {
    && r in g'.rops && g'.rops[r].body == g.rops[r].body && g'.rops[r].index == g.rops[r].index
    && (g.rops[r].installed ==> g'.rops[r].installed)
    && (g.rops[r].installed && g.rops[r].body.addr2 < |g.mem| == |g'.mem| ==>
          g.mem[g.rops[r].body.addr2] != RdcssTag(r) ==> g'.mem[g.rops[r].body.addr2] != RdcssTag(r))
  }

  ghost predicate Rely(g: Shared, g': Shared) {
    && |g'.mem| == |g.mem| && |g'.kd| == |g.kd| && |g'.rd| == |g.rd|
    && (forall u: nat :: u < |g.kd| ==> g.kd[u].seqno <= g'.kd[u].seqno)
    && (forall u: nat :: u < |g.rd| ==> g.rd[u].seqno <= g'.rd[u].seqno)
    && (forall k {:trigger OpEvolves(g, g', k)} :: k in g.ops ==> OpEvolves(g, g', k))
    && (forall r {:trigger RopEvolves(g, g', r)} :: r in g.rops ==> RopEvolves(g, g', r))
  }

  /** What the steps of other threads leave alone of thread t's own descriptors. */
  ghost predicate Untouched(g: Shared, g': Shared, t: nat) {
    && t < |g.kd| == |g'.kd| && t < |g.rd| == |g'.rd|
    && g'.rd[t] == g.rd[t]
    && g'.kd[t].seqno == g.kd[t].seqno
    && (Tag(t, g.kd[t].seqno) !in g.ops ==> g'.kd[t] == g.kd[t])
    && (forall k :: k in g'.ops && k.tid == t ==> k in g.ops)
    && (forall r :: r in g'.rops && r.tid == t ==> r in g.rops && g'.rops[r].installed == g.rops[r].installed)
  }

  // ----- what a thread knows -----

  ghost predicate SnapOk(snap: map<Field, nat>, d: KDesc) {
    forall f :: f in snap ==> snap[f] == ReadField(d, f)
  }

  ghost predicate FrameOk(g: Shared, f: Frame) {
    && f.tag in g.ops && f.tag.tid < |g.kd|
    && (f.helping ==> Passed(g, f.tag, 1))
    && var op := g.ops[f.tag];
       match f.pc
       case Copy(snap) =>
         f.helping && (g.kd[f.tag.tid].seqno == f.tag.seqno ==> SnapOk(snap, KDesc(f.tag.seqno, Undecided, op.entries)))
       case Entry(i) => Known(g, f) && AtEntry(g, f, i)
       case Fill(i) => Known(g, f) && AtEntry(g, f, i) && i < |f.entries|
       case TryCas(i) => Known(g, f) && AtEntry(g, f, i) && i < |f.entries|
       case OwnHelp(i) => Known(g, f) && AtEntry(g, f, i) && i < |f.entries|
       case Decide(ns) => Known(g, f) && Warranted(g, f, ns)
       case DecideCas(ns) => Known(g, f) && Warranted(g, f, ns)
       case DecideRetry(ns) => Known(g, f) && Warranted(g, f, ns)
       case ReadState => Known(g, f)
       case ReadOutcome => Known(g, f) && !op.status.Undecided?
       case Clean(_, succ) => Known(g, f) && !op.status.Undecided? && (succ <==> op.status.Succeeded?)
       case Return(b) => Known(g, f) && (!f.helping ==> !op.status.Undecided? && (b <==> op.status.Succeeded?))
  }

  ghost predicate Known(g: Shared, f: Frame)
    requires f.tag in g.ops
  {
    f.sseq == f.tag.seqno && f.entries == g.ops[f.tag].entries
  }

  ghost predicate AtEntry(g: Shared, f: Frame, i: nat) {
    Passed(g, f.tag, i) && (f.helping ==> i >= 1)
  }

  ghost predicate Warranted(g: Shared, f: Frame, ns: Status)
    requires f.tag in g.ops
  {
    && !ns.Undecided?
    && (ns.Succeeded? ==> Passed(g, f.tag, |f.entries|))
    && (ns.Failed? ==> g.ops[f.tag].contradicted)
  }

  ghost predicate RSnapOk(sn: RSnap, b: RBody) {
    && (sn.addr1.Some? ==> sn.addr1.value == b.addr1) && (sn.old1.Some? ==> sn.old1.value == b.old1)
    && (sn.addr2.Some? ==> sn.addr2.value == b.addr2) && (sn.old2.Some? ==> sn.old2.value == b.old2)
    && (sn.new2.Some? ==> sn.new2.value == b.new2)
  }

  ghost predicate SlotOk(g: Shared, sl: Slot) {
    match sl
    case Free => true
    case RCopy(r, sn) =>
      && r in g.rops && g.rops[r].installed && r.tid < |g.rd|
      && (g.rd[r.tid].seqno == r.seqno ==> RSnapOk(sn, g.rops[r].body))
    case RRead(r, b) => r in g.rops && g.rops[r].installed && g.rops[r].body == b
    case RFinish(r, b, und) =>
      && r in g.rops && g.rops[r].installed && g.rops[r].body == b
      && b.old1 in g.ops && b.addr2 < |g.mem|
      && (und && g.ops[b.old1].status.Succeeded? ==> g.mem[b.addr2] != RdcssTag(r))
      && (!und ==> !g.ops[b.old1].status.Undecided?)
  }

  /** The RDCSS that thread t has published last. */
  function Own(g: Shared, t: nat): Tag
    requires t < |g.rd|
  {
    Tag(t, g.rd[t].seqno)
  }

  ghost predicate OwnRop(g: Shared, t: nat, f: Frame, i: nat, installed: bool)
    requires t < |g.rd|
  {
    && i < |f.entries| && Own(g, t) in g.rops
    && g.rops[Own(g, t)] == Rop(Target(f, i), i, installed)
  }

  ghost predicate StackOk(g: Shared, t: nat, T: Thread) {
    && t < |g.kd| == |g.rd|
    && (forall d: nat :: d < |T.stack| - 1 ==> T.stack[d].pc.Entry?)
    && (forall d: nat :: 0 < d < |T.stack| ==> T.stack[d].helping)
    && (forall k :: k in g.ops && k.tid == t && g.ops[k].status.Undecided? ==>
          |T.stack| > 0 && T.stack[0].tag == k && !T.stack[0].helping)
    && (|T.stack| > 0 && !T.stack[0].helping ==>
          T.stack[0].tag == Tag(t, g.kd[t].seqno) && !T.building)
    && (T.building ==> Tag(t, g.kd[t].seqno) !in g.ops && g.kd[t].state.Undecided?)
  }

  ghost predicate TopOk(g: Shared, t: nat, T: Thread)
    requires t < |g.rd|
  {
    if T.stack == [] then true else
    match Top(T).pc
    case Fill(i) => T.slot.Free? && Own(g, t) !in g.rops
    case TryCas(i) => OwnRop(g, t, Top(T), i, false)
    case OwnHelp(i) =>
      && OwnRop(g, t, Top(T), i, true)
      && (if T.slot.Free? then Top(T).entries[i].addr < |g.mem| && g.mem[Top(T).entries[i].addr] != RdcssTag(Own(g, t))
          else (T.slot.RRead? || T.slot.RFinish?) && T.slot.tag == Own(g, t))
    case _ => T.slot.Free?
  }

  ghost predicate ThreadOk(g: Shared, t: nat, T: Thread) {
    && StackOk(g, t, T)
    && (forall d: nat :: d < |T.stack| ==> FrameOk(g, T.stack[d]))
    && SlotOk(g, T.slot)
    && TopOk(g, t, T)
  }

  ghost predicate Inv(s: State) {
    && |s.g.kd| == |s.th| && |s.g.rd| == |s.th|
    && Good(s.g)
    && forall t: nat :: t < |s.th| ==> ThreadOk(s.g, t, s.th[t])
  }

  // ----- stability -----

  lemma PassedStable(g: Shared, g': Shared, k: Tag, i: nat)
    requires Rely(g, g') && Passed(g, k, i)
    ensures Passed(g', k, i)
  {
    assert OpEvolves(g, g', k);
  }

  lemma FrameStable(g: Shared, g': Shared, f: Frame)
    requires Good(g) && Rely(g, g') && FrameOk(g, f)
    ensures FrameOk(g', f)
  {
    assert OpEvolves(g, g', f.tag) && OpOk(g, f.tag);
    if f.helping { PassedStable(g, g', f.tag, 1); }
    match f.pc
    case Entry(i) => PassedStable(g, g', f.tag, i);
    case Fill(i) => PassedStable(g, g', f.tag, i);
    case TryCas(i) => PassedStable(g, g', f.tag, i);
    case OwnHelp(i) => PassedStable(g, g', f.tag, i);
    case Decide(ns) => if ns.Succeeded? { PassedStable(g, g', f.tag, |f.entries|); }
    case DecideCas(ns) => if ns.Succeeded? { PassedStable(g, g', f.tag, |f.entries|); }
    case DecideRetry(ns) => if ns.Succeeded? { PassedStable(g, g', f.tag, |f.entries|); }
    case _ =>
  }

  lemma SlotStable(g: Shared, g': Shared, sl: Slot)
    requires Good(g) && Rely(g, g') && SlotOk(g, sl)
    ensures SlotOk(g', sl)
  {
    if !sl.Free? {
      var r := sl.tag;
      assert RopEvolves(g, g', r);
      assert RopOk(g, r);
      var b := g.rops[r].body;
      var i := g.rops[r].index;
      assert OpEvolves(g, g', b.old1);
      if g.ops[b.old1].status.Undecided? && g'.ops[b.old1].status.Succeeded? {
        assert Holds(g', b.old1, i);
      }
    }
  }

  lemma OtherThreadStable(g: Shared, g': Shared, t: nat, T: Thread)
    requires Good(g) && Rely(g, g') && Untouched(g, g', t) && ThreadOk(g, t, T)
    ensures ThreadOk(g', t, T)
  {
    forall d: nat | d < |T.stack| ensures FrameOk(g', T.stack[d]) { FrameStable(g, g', T.stack[d]); }
    SlotStable(g, g', T.slot);
    forall k | k in g'.ops && k.tid == t && g'.ops[k].status.Undecided?
      ensures |T.stack| > 0 && T.stack[0].tag == k && !T.stack[0].helping
    {
      assert k in g.ops && OpEvolves(g, g', k);
    }
    if Own(g, t) in g.rops { assert RopEvolves(g, g', Own(g, t)); }
  }
}
