/**
 Double-compare-single-swap with reused descriptors, as a state machine.

 A step is one access to shared memory by one thread, or a plain store by the program to a word that
 holds no tag.  `ops` is history: no guard and no written value depends on it.
 */
module DcssModel {
  import opened Wrappers

  datatype Tag = Tag(tid: nat, seqno: nat)

  datatype Word = Val(v: nat) | DcssTag(k: Tag)

  datatype Status = Undecided | Succeeded | Failed

  datatype Body = Body(addr1: nat, old1: nat, addr2: nat, old2: nat, new2: nat)

  /** `seqno` and `state` share the mutable word of the descriptor. */
  datatype Desc = Desc(seqno: nat, state: Status, body: Body)

  /** History of a published operation.  `matched` and `mismatched`: a helper has read addr1 and found
      old1, or something else, while addr2 held the tag. */
  datatype Op = Op(body: Body, status: Status, installed: bool, matched: bool, mismatched: bool)

  datatype Shared = Shared(mem: seq<Word>, desc: seq<Desc>, ops: map<Tag, Op>)

  datatype Snap = Snap(seqno: Option<nat>, addr1: Option<nat>, old1: Option<nat>,
                       addr2: Option<nat>, old2: Option<nat>, new2: Option<nat>)

  const EMPTY_SNAP := Snap(None, None, None, None, None, None)

  /** An activation of `dcssHelp`; `sseq` and `body` are the fields of its snapshot. */
  datatype Slot =
    | Free
    | Copy(tag: Tag, snap: Snap)
    | ReadAddr1(tag: Tag, sseq: nat, body: Body)
    | ReadMut(tag: Tag, sseq: nat, body: Body, val1: Word)
    | CasMut(tag: Tag, sseq: nat, body: Body, val1: Word)
    | Finish(tag: Tag, body: Body, val1: Word, succ: bool)

  datatype Result = Success | FailedAddr1(val1: Word) | FailedAddr2(r: nat) | Ignored

  datatype Pc =
    | Idle
    | Fill(want: Body) | TryCas | OwnHelp | Done(result: Result)   // dcssPtr
    | Read(a: nat) | Got(a: nat, v: nat)                           // dcssRead

  datatype Thread = Thread(pc: Pc, slot: Slot)

  datatype State = State(g: Shared, th: seq<Thread>)

  function Own(g: Shared, t: nat): Tag
    requires t < |g.desc|
  {
    Tag(t, g.desc[t].seqno)
  }

  function NoteInstalled(ops: map<Tag, Op>, k: Tag): map<Tag, Op> {
    if k in ops then ops[k := ops[k].(installed := true)] else ops
  }

  function NoteStatus(ops: map<Tag, Op>, k: Tag, ns: Status): map<Tag, Op> {
    if k in ops then ops[k := ops[k].(status := ns)] else ops
  }

  function NoteRead(g: Shared, k: Tag, b: Body): map<Tag, Op>
    requires b.addr1 < |g.mem| && b.addr2 < |g.mem|
  {
    if k in g.ops && g.mem[b.addr2] == DcssTag(k) then
      if g.mem[b.addr1] == Val(b.old1) then g.ops[k := g.ops[k].(matched := true)]
      else g.ops[k := g.ops[k].(mismatched := true)]
    else g.ops
  }

  // ----- dcssPtr -----

  ghost predicate New(g: Shared, T: Thread, t: nat, g': Shared, T': Thread)
    requires t < |g.desc|
  {
    && T == Thread(Idle, Free)
    && g' == g.(desc := g.desc[t := g.desc[t].(seqno := g.desc[t].seqno + 1, state := Undecided)])
    && T'.pc.Fill? && T'.slot.Free?
    && T'.pc.want.addr1 < |g.mem| && T'.pc.want.addr2 < |g.mem|
  }

  ghost predicate FillField(g: Shared, T: Thread, t: nat, g': Shared, T': Thread)
    requires t < |g.desc|
  {
    && T.pc.Fill? && T' == T && |g'.desc| == |g.desc|
    && var w, b := T.pc.want, g.desc[t].body;
       && g'.desc[t].body in {b.(addr1 := w.addr1), b.(old1 := w.old1), b.(addr2 := w.addr2),
                              b.(old2 := w.old2), b.(new2 := w.new2)}
       && g' == g.(desc := g.desc[t := g.desc[t].(body := g'.desc[t].body)])
  }

  ghost predicate Publish(g: Shared, T: Thread, t: nat, g': Shared, T': Thread)
    requires t < |g.desc|
  {
    var d := g.desc[t];
    && T.pc.Fill? && d.body == T.pc.want
    && g' == g.(desc := g.desc[t := d.(seqno := d.seqno + 1)],
                ops := g.ops[Tag(t, d.seqno + 1) := Op(d.body, d.state, false, false, false)])
    && T' == T.(pc := TryCas)
  }

  /** One compare-and-swap of the loop in `dcssPtr`. */
  ghost predicate DoTryCas(g: Shared, T: Thread, t: nat, g': Shared, T': Thread)
    requires t < |g.desc|
  {
    && T == Thread(TryCas, Free)
    && var b := g.desc[t].body;
       var k := Own(g, t);
       && b.addr2 < |g.mem|
       && match g.mem[b.addr2]
          case DcssTag(y) => g' == g && T' == T.(slot := Copy(y, EMPTY_SNAP))
          case Val(v) =>
            if v == b.old2 then
              && g' == g.(mem := g.mem[b.addr2 := DcssTag(k)], ops := NoteInstalled(g.ops, k))
              && T' == Thread(OwnHelp, ReadAddr1(k, g.desc[t].seqno, b))
            else
              g' == g && T' == T.(pc := Done(FailedAddr2(v)))
  }

  ghost predicate Return(g: Shared, T: Thread, g': Shared, T': Thread) {
    T.pc.Done? && T.slot.Free? && g' == g && T' == Thread(Idle, Free)
  }

  // ----- dcssRead, dcssHelpOther -----

  ghost predicate CallRead(g: Shared, T: Thread, g': Shared, T': Thread) {
    T == Thread(Idle, Free) && T'.pc.Read? && T'.pc.a < |g.mem| && T'.slot.Free? && g' == g
  }

  ghost predicate Load(g: Shared, T: Thread, g': Shared, T': Thread) {
    && T.pc.Read? && T.slot.Free? && T.pc.a < |g.mem| && g' == g
    && match g.mem[T.pc.a]
       case Val(v) => T' == T.(pc := Got(T.pc.a, v))
       case DcssTag(k) => T' == T.(slot := Copy(k, EMPTY_SNAP))
  }

  ghost predicate ReturnRead(g: Shared, T: Thread, g': Shared, T': Thread) {
    T.pc.Got? && T.slot.Free? && g' == g && T' == Thread(Idle, Free)
  }

  ghost predicate CopyWord(g: Shared, T: Thread, g': Shared, T': Thread) {
    && T.slot.Copy? && T.slot.tag.tid < |g.desc| && g' == g
    && var d := g.desc[T.slot.tag.tid];
       var sn := T.slot.snap;
       exists sn' <- {sn.(seqno := Some(d.seqno)), sn.(addr1 := Some(d.body.addr1)), sn.(old1 := Some(d.body.old1)),
                      sn.(addr2 := Some(d.body.addr2)), sn.(old2 := Some(d.body.old2)), sn.(new2 := Some(d.body.new2))} ::
         T' == T.(slot := Copy(T.slot.tag, sn'))
  }

  ghost predicate Validate(g: Shared, T: Thread, g': Shared, T': Thread) {
    && T.slot.Copy? && T.slot.tag.tid < |g.desc| && g' == g
    && var sn := T.slot.snap;
       && sn.seqno.Some? && sn.addr1.Some? && sn.old1.Some? && sn.addr2.Some? && sn.old2.Some? && sn.new2.Some?
       && T' == T.(slot := if g.desc[T.slot.tag.tid].seqno == T.slot.tag.seqno
                           then ReadAddr1(T.slot.tag, sn.seqno.value,
                                          Body(sn.addr1.value, sn.old1.value, sn.addr2.value, sn.old2.value, sn.new2.value))
                           else Free)
  }

  // ----- dcssHelp -----

  ghost predicate DoReadAddr1(g: Shared, T: Thread, g': Shared, T': Thread) {
    && T.slot.ReadAddr1?
    && var ReadAddr1(k, sseq, b) := T.slot;
       && b.addr1 < |g.mem| && b.addr2 < |g.mem|
       && g' == g.(ops := NoteRead(g, k, b))
       && T' == T.(slot := ReadMut(k, sseq, b, g.mem[b.addr1]))
  }

  /** MUTABLES_VAL_CAS_FIELD gives up: the sequence number has changed. */
  function GiveUp(T: Thread): Thread {
    Thread(if T.pc.OwnHelp? then Done(Ignored) else T.pc, Free)
  }

  ghost predicate DoReadMut(g: Shared, T: Thread, g': Shared, T': Thread) {
    && T.slot.ReadMut? && T.slot.tag.tid < |g.desc| && g' == g
    && var ReadMut(k, sseq, b, val1) := T.slot;
       T' == if g.desc[k.tid].seqno != sseq then GiveUp(T) else T.(slot := CasMut(k, sseq, b, val1))
  }

  /** The compare-and-swap of MUTABLES_VAL_CAS_FIELD.  When it fails, the state field of whatever the
      descriptor now describes is used without looking at the sequence number again. */
  ghost predicate DoCasMut(g: Shared, T: Thread, g': Shared, T': Thread) {
    && T.slot.CasMut? && T.slot.tag.tid < |g.desc|
    && var CasMut(k, sseq, b, val1) := T.slot;
       var d := g.desc[k.tid];
       var ns := if val1 == Val(b.old1) then Succeeded else Failed;
       if d.seqno == sseq && d.state.Undecided? then
         && g' == g.(desc := g.desc[k.tid := d.(state := ns)], ops := NoteStatus(g.ops, k, ns))
         && T' == T.(slot := Finish(k, b, val1, ns.Succeeded?))
       else
         && g' == g
         && T' == if !d.state.Undecided? then T.(slot := Finish(k, b, val1, d.state.Succeeded?))
                  else GiveUp(T)
  }

  ghost predicate DoFinish(g: Shared, T: Thread, g': Shared, T': Thread) {
    && T.slot.Finish?
    && var Finish(k, b, val1, succ) := T.slot;
       && b.addr2 < |g.mem|
       && g' == (if g.mem[b.addr2] == DcssTag(k)
                 then g.(mem := g.mem[b.addr2 := Val(if succ then b.new2 else b.old2)])
                 else g)
       && T' == Thread(if T.pc.OwnHelp? then Done(if succ then Success else FailedAddr1(val1)) else T.pc, Free)
  }

  ghost predicate ThreadStep(g: Shared, T: Thread, t: nat, g': Shared, T': Thread)
    requires t < |g.desc|
  {
    || New(g, T, t, g', T') || FillField(g, T, t, g', T') || Publish(g, T, t, g', T')
    || DoTryCas(g, T, t, g', T') || Return(g, T, g', T')
    || CallRead(g, T, g', T') || Load(g, T, g', T') || ReturnRead(g, T, g', T') || CopyWord(g, T, g', T') || Validate(g, T, g', T')
    || DoReadAddr1(g, T, g', T') || DoReadMut(g, T, g', T') || DoCasMut(g, T, g', T') || DoFinish(g, T, g', T')
  }

  /** The program stores a plain value into a word that holds no tag. */
  ghost predicate Store(g: Shared, a: nat, g': Shared) {
    && a < |g.mem| == |g'.mem| && g.mem[a].Val? && g'.mem[a].Val?
    && g' == g.(mem := g.mem[a := g'.mem[a]])
  }

  ghost predicate StepOf(s: State, s': State, t: nat) {
    && t < |s.th| && |s'.th| == |s.th| == |s.g.desc|
    && s'.th == s.th[t := s'.th[t]]
    && ThreadStep(s.g, s.th[t], t, s'.g, s'.th[t])
  }

  ghost predicate StoreStep(s: State, s': State) {
    s'.th == s.th && exists a: nat :: Store(s.g, a, s'.g)
  }

  ghost predicate Next(s: State, s': State) {
    StoreStep(s, s') || exists t: nat :: StepOf(s, s', t)
  }

  ghost predicate Init(s: State) {
    && |s.g.desc| == |s.th| && s.g.ops == map[]
    && (forall a :: 0 <= a < |s.g.mem| ==> s.g.mem[a].Val?)
    && (forall t :: 0 <= t < |s.th| ==> s.th[t] == Thread(Idle, Free))
    && (forall t :: 0 <= t < |s.th| ==> s.g.desc[t].seqno == 1 && s.g.desc[t].state == Undecided)
  }

  ghost predicate Run(run: seq<State>) {
    && |run| > 0 && Init(run[0])
    && forall n {:trigger Next(run[n], run[n + 1])} :: 0 <= n < |run| - 1 ==> Next(run[n], run[n + 1])
  }
}

/** The invariant of the DCSS machine and what follows from it for every run. */
module DcssProof {
  import opened DcssModel

  ghost predicate OpOk(g: Shared, k: Tag)
    requires k in g.ops
  {
    var op := g.ops[k];
    && k.tid < |g.desc| && k.seqno <= g.desc[k.tid].seqno
    && op.body.addr1 < |g.mem| && op.body.addr2 < |g.mem|
    && (k.seqno == g.desc[k.tid].seqno ==> g.desc[k.tid].body == op.body && g.desc[k.tid].state == op.status)
    && (k.seqno < g.desc[k.tid].seqno ==> g.mem[op.body.addr2] != DcssTag(k))
    && (op.installed && op.status.Undecided? ==> g.mem[op.body.addr2] == DcssTag(k))
    && (op.status.Succeeded? ==> op.matched) && (op.status.Failed? ==> op.mismatched)
    && (!op.installed ==> op.status.Undecided?)
  }

  ghost predicate WordOk(g: Shared, a: nat)
    requires a < |g.mem|
  {
    match g.mem[a]
    case Val(_) => true
    case DcssTag(k) => k in g.ops && g.ops[k].installed && g.ops[k].body.addr2 == a
  }

  ghost predicate Good(g: Shared) {
    && (forall k {:trigger OpOk(g, k)} :: k in g.ops ==> OpOk(g, k))
    && (forall a: nat {:trigger WordOk(g, a)} :: a < |g.mem| ==> WordOk(g, a))
  }

  ghost predicate OpEvolves(g: Shared, g': Shared, k: Tag)
    requires k in g.ops
  {
    var op := g.ops[k];
    && k in g'.ops
    && var op' := g'.ops[k];
       && op'.body == op.body
       && (op.installed ==> op'.installed) && (op.matched ==> op'.matched) && (op.mismatched ==> op'.mismatched)
       && (!op.status.Undecided? ==> op'.status == op.status)
       && (op.installed && op.body.addr2 < |g.mem| == |g'.mem| ==>
             g.mem[op.body.addr2] != DcssTag(k) ==> g'.mem[op.body.addr2] != DcssTag(k))
  }

  ghost predicate Rely(g: Shared, g': Shared) {
    && |g'.mem| == |g.mem| && |g'.desc| == |g.desc|
    && (forall u: nat :: u < |g.desc| ==> g.desc[u].seqno <= g'.desc[u].seqno)
    && (forall k {:trigger OpEvolves(g, g', k)} :: k in g.ops ==> OpEvolves(g, g', k))
  }

  ghost predicate Untouched(g: Shared, g': Shared, t: nat) {
    && t < |g.desc| == |g'.desc|
    && g'.desc[t].seqno == g.desc[t].seqno && g'.desc[t].body == g.desc[t].body
    && (!(Own(g, t) in g.ops && g.ops[Own(g, t)].installed) ==> g'.desc[t] == g.desc[t])
    && (forall k :: k in g'.ops && k.tid == t ==> k in g.ops && g'.ops[k].installed == g.ops[k].installed)
  }

  ghost predicate SnapOk(sn: Snap, d: Desc) {
    && (sn.seqno.Some? ==> sn.seqno.value == d.seqno)
    && (sn.addr1.Some? ==> sn.addr1.value == d.body.addr1) && (sn.old1.Some? ==> sn.old1.value == d.body.old1)
    && (sn.addr2.Some? ==> sn.addr2.value == d.body.addr2) && (sn.old2.Some? ==> sn.old2.value == d.body.old2)
    && (sn.new2.Some? ==> sn.new2.value == d.body.new2)
  }

  /** As long as the operation is undecided, what was read at addr1 was read while addr2 held the tag. */
  ghost predicate ReadOk(op: Op, val1: Word) {
    op.status.Undecided? ==> if val1 == Val(op.body.old1) then op.matched else op.mismatched
  }

  ghost predicate SlotOk(g: Shared, sl: Slot) {
    if sl.Free? then true else
    && sl.tag in g.ops && g.ops[sl.tag].installed && sl.tag.tid < |g.desc|
    && g.ops[sl.tag].body.addr2 < |g.mem|
    && var k, op := sl.tag, g.ops[sl.tag];
       match sl
       case Copy(_, sn) =>
         g.desc[k.tid].seqno == k.seqno ==> SnapOk(sn, Desc(k.seqno, Undecided, op.body))
       case ReadAddr1(_, sseq, b) => sseq == k.seqno && b == op.body
       case ReadMut(_, sseq, b, val1) => sseq == k.seqno && b == op.body && ReadOk(op, val1)
       case CasMut(_, sseq, b, val1) => sseq == k.seqno && b == op.body && ReadOk(op, val1)
       case Finish(_, b, _, succ) =>
         && b == op.body
         && (g.mem[b.addr2] == DcssTag(k) ==> !op.status.Undecided? && (succ <==> op.status.Succeeded?))
       case Free => true
  }

  ghost predicate ResultOk(op: Op, r: Result) {
    match r
    case Success => op.status.Succeeded?
    case FailedAddr1(_) => op.status.Failed?
    case FailedAddr2(_) => !op.installed
    case Ignored => false
  }

  /** Not in `dcssPtr`. */
  predicate Outside(pc: Pc) { pc.Idle? || pc.Read? || pc.Got? }

  ghost predicate PcOk(g: Shared, t: nat, T: Thread)
    requires t < |g.desc|
  {
    var k := Own(g, t);
    if Outside(T.pc) then
      && (k in g.ops ==> g.desc[t].body.addr2 < |g.mem| && g.mem[g.desc[t].body.addr2] != DcssTag(k))
      && (T.pc.Read? ==> T.pc.a < |g.mem|)
    else
    match T.pc
    case Fill(w) => T.slot.Free? && k !in g.ops && g.desc[t].state.Undecided? && w.addr1 < |g.mem| && w.addr2 < |g.mem|
    case TryCas => k in g.ops && !g.ops[k].installed
    case OwnHelp =>
      && k in g.ops && !T.slot.Free? && !T.slot.Copy? && T.slot.tag == k
      && (T.slot.Finish? ==> !g.ops[k].status.Undecided? && (T.slot.succ <==> g.ops[k].status.Succeeded?))
    case Done(r) =>
      && T.slot.Free? && k in g.ops && ResultOk(g.ops[k], r)
      && g.desc[t].body.addr2 < |g.mem| && g.mem[g.desc[t].body.addr2] != DcssTag(k)
  }

  ghost predicate ThreadOk(g: Shared, t: nat, T: Thread) {
    t < |g.desc| && SlotOk(g, T.slot) && PcOk(g, t, T)
  }

  ghost predicate Inv(s: State) {
    && |s.g.desc| == |s.th| && Good(s.g)
    && forall t: nat {:trigger ThreadOk(s.g, t, s.th[t])} :: t < |s.th| ==> ThreadOk(s.g, t, s.th[t])
  }

  lemma SlotStable(g: Shared, g': Shared, sl: Slot)
    requires Good(g) && Rely(g, g') && SlotOk(g, sl)
    ensures SlotOk(g', sl)
  {
    if !sl.Free? { assert OpEvolves(g, g', sl.tag) && OpOk(g, sl.tag); }
  }

  lemma OtherThreadStable(g: Shared, g': Shared, t: nat, T: Thread)
    requires Good(g) && Good(g') && Rely(g, g') && Untouched(g, g', t) && ThreadOk(g, t, T)
    ensures ThreadOk(g', t, T)
  {
    SlotStable(g, g', T.slot);
    if Own(g, t) in g.ops {
      assert OpEvolves(g, g', Own(g, t)) && OpOk(g, Own(g, t)) && OpOk(g', Own(g, t));
      assert WordOk(g', g.ops[Own(g, t)].body.addr2);
    }
  }

  // ----- every step keeps the invariant -----

  ghost predicate Before(g: Shared, t: nat, T: Thread) {
    Good(g) && ThreadOk(g, t, T)
  }

  ghost predicate Keeps(g: Shared, t: nat, g': Shared, T': Thread) {
    && Good(g') && Rely(g, g') && ThreadOk(g', t, T')
    && forall u: nat :: u < |g.desc| && u != t ==> Untouched(g, g', u)
  }

  lemma StepNew(g: Shared, T: Thread, t: nat, g': Shared, T': Thread)
    requires Before(g, t, T) && New(g, T, t, g', T')
    ensures Keeps(g, t, g', T')
  {
    assert Own(g', t) !in g.ops by { assert Own(g', t) in g.ops ==> OpOk(g, Own(g', t)); }
    forall k | k in g.ops ensures OpOk(g', k) {
      assert OpOk(g, k);
      assert k.tid == t && k.seqno == g.desc[t].seqno ==> k == Own(g, t);
    }
    forall a: nat | a < |g.mem| ensures WordOk(g', a) { assert WordOk(g, a); }
  }

  lemma StepFillField(g: Shared, T: Thread, t: nat, g': Shared, T': Thread)
    requires Before(g, t, T) && FillField(g, T, t, g', T')
    ensures Keeps(g, t, g', T')
  {
    forall k | k in g.ops ensures OpOk(g', k) { assert OpOk(g, k) && k != Own(g, t); }
    forall a: nat | a < |g.mem| ensures WordOk(g', a) { assert WordOk(g, a); }
  }

  lemma StepPublish(g: Shared, T: Thread, t: nat, g': Shared, T': Thread)
    requires Before(g, t, T) && Publish(g, T, t, g', T')
    ensures Keeps(g, t, g', T')
  {
    var k0 := Tag(t, g.desc[t].seqno + 1);
    assert k0 !in g.ops by { assert k0 in g.ops ==> OpOk(g, k0); }
    forall k | k in g.ops ensures OpOk(g', k) && OpEvolves(g, g', k) { assert OpOk(g, k) && k != Own(g, t); }
    forall a: nat | a < |g.mem| ensures WordOk(g', a) { assert WordOk(g, a); }
    assert OpOk(g', k0);
  }

  lemma StepDoTryCas(g: Shared, T: Thread, t: nat, g': Shared, T': Thread)
    requires Before(g, t, T) && DoTryCas(g, T, t, g', T')
    ensures Keeps(g, t, g', T')
  {
    var k := Own(g, t);
    assert OpOk(g, k);
    var a := g.desc[t].body.addr2;
    assert WordOk(g, a);
    if g.mem[a].DcssTag? { assert OpOk(g, g.mem[a].k); }
    forall l | l in g.ops ensures OpOk(g', l) && OpEvolves(g, g', l) { assert OpOk(g, l); }
    forall b: nat | b < |g.mem| ensures WordOk(g', b) { assert WordOk(g, b); }
  }

  /** Steps that change neither memory nor descriptors nor history. */
  lemma LocalStep(g: Shared, T: Thread, t: nat, T': Thread)
    requires Before(g, t, T)
    requires Return(g, T, g, T') || CallRead(g, T, g, T') || Load(g, T, g, T') || ReturnRead(g, T, g, T')
          || CopyWord(g, T, g, T') || Validate(g, T, g, T') || DoReadMut(g, T, g, T')
    ensures Keeps(g, t, g, T')
  {
    if Load(g, T, g, T') {
      StepLoad(g, T, t, T');
    } else {
      if !T.slot.Free? { assert OpOk(g, T.slot.tag); }
      if Own(g, t) in g.ops { assert OpOk(g, Own(g, t)); }
    }
  }

  lemma StepLoad(g: Shared, T: Thread, t: nat, T': Thread)
    requires Before(g, t, T) && Load(g, T, g, T')
    ensures Keeps(g, t, g, T')
  {
    assert WordOk(g, T.pc.a);
    if g.mem[T.pc.a].DcssTag? { assert OpOk(g, g.mem[T.pc.a].k); }
    if Own(g, t) in g.ops { assert OpOk(g, Own(g, t)); }
  }

  lemma StepDoReadAddr1(g: Shared, T: Thread, t: nat, g': Shared, T': Thread)
    requires Before(g, t, T) && DoReadAddr1(g, T, g', T')
    ensures Keeps(g, t, g', T')
  {
    ReadAddr1Good(g, T, t, g', T');
    assert OpOk(g, T.slot.tag) && OpOk(g', T.slot.tag);
  }

  lemma ReadAddr1Good(g: Shared, T: Thread, t: nat, g': Shared, T': Thread)
    requires Before(g, t, T) && DoReadAddr1(g, T, g', T')
    ensures Good(g') && Rely(g, g') && forall u: nat :: u < |g.desc| && u != t ==> Untouched(g, g', u)
  {
    assert OpOk(g, T.slot.tag);
    forall l | l in g.ops ensures OpOk(g', l) && OpEvolves(g, g', l) { assert OpOk(g, l); }
    forall b: nat | b < |g.mem| ensures WordOk(g', b) { assert WordOk(g, b); }
  }

  lemma StepDoCasMut(g: Shared, T: Thread, t: nat, g': Shared, T': Thread)
    requires Before(g, t, T) && DoCasMut(g, T, g', T')
    ensures Keeps(g, t, g', T')
  {
    CasMutGood(g, T, t, g', T');
    assert OpOk(g, T.slot.tag) && OpOk(g', T.slot.tag);
    if Own(g, t) in g.ops { assert OpOk(g, Own(g, t)); }
  }

  lemma CasMutGood(g: Shared, T: Thread, t: nat, g': Shared, T': Thread)
    requires Before(g, t, T) && DoCasMut(g, T, g', T')
    ensures Good(g') && Rely(g, g') && forall u: nat :: u < |g.desc| && u != t ==> Untouched(g, g', u)
  {
    assert OpOk(g, T.slot.tag);
    forall l | l in g.ops ensures OpOk(g', l) && OpEvolves(g, g', l) { assert OpOk(g, l); }
    forall b: nat | b < |g.mem| ensures WordOk(g', b) { assert WordOk(g, b); }
  }

  lemma StepDoFinish(g: Shared, T: Thread, t: nat, g': Shared, T': Thread)
    requires Before(g, t, T) && DoFinish(g, T, g', T')
    ensures Keeps(g, t, g', T')
  {
    assert OpOk(g, T.slot.tag);
    forall l | l in g.ops ensures OpOk(g', l) && OpEvolves(g, g', l) {
      assert OpOk(g, l) && WordOk(g, g.ops[l].body.addr2);
    }
    forall b: nat | b < |g.mem| ensures WordOk(g', b) { assert WordOk(g, b); }
    if Own(g, t) in g.ops { assert OpOk(g, Own(g, t)); }
  }

  lemma StepStore(g: Shared, a: nat, g': Shared)
    requires Good(g) && Store(g, a, g')
    ensures Good(g') && Rely(g, g') && forall u: nat :: u < |g.desc| ==> Untouched(g, g', u)
  {
    forall l | l in g.ops ensures OpOk(g', l) && OpEvolves(g, g', l) { assert OpOk(g, l); }
    forall b: nat | b < |g.mem| ensures WordOk(g', b) { assert WordOk(g, b); }
  }

  lemma StepKeeps(g: Shared, T: Thread, t: nat, g': Shared, T': Thread)
    requires Before(g, t, T) && ThreadStep(g, T, t, g', T')
    ensures Keeps(g, t, g', T')
  {
    if New(g, T, t, g', T') { StepNew(g, T, t, g', T'); }
    else if FillField(g, T, t, g', T') { StepFillField(g, T, t, g', T'); }
    else if Publish(g, T, t, g', T') { StepPublish(g, T, t, g', T'); }
    else if DoTryCas(g, T, t, g', T') { StepDoTryCas(g, T, t, g', T'); }
    else if DoReadAddr1(g, T, g', T') { StepDoReadAddr1(g, T, t, g', T'); }
    else if DoCasMut(g, T, g', T') { StepDoCasMut(g, T, t, g', T'); }
    else if DoFinish(g, T, g', T') { StepDoFinish(g, T, t, g', T'); }
    else { LocalStep(g, T, t, T'); }
  }

  lemma NextKeepsInv(s: State, s': State)
    requires Inv(s) && Next(s, s')
    ensures Inv(s') && Rely(s.g, s'.g)
  {
    if StoreStep(s, s') {
      var a: nat :| Store(s.g, a, s'.g);
      StepStore(s.g, a, s'.g);
      forall u: nat | u < |s'.th| ensures ThreadOk(s'.g, u, s'.th[u]) { OtherThreadStable(s.g, s'.g, u, s.th[u]); }
    } else {
      var t: nat :| StepOf(s, s', t);
      assert ThreadOk(s.g, t, s.th[t]);
      StepKeeps(s.g, s.th[t], t, s'.g, s'.th[t]);
      forall u: nat | u < |s'.th| ensures ThreadOk(s'.g, u, s'.th[u]) {
        assert ThreadOk(s.g, u, s.th[u]);
        if u != t { OtherThreadStable(s.g, s'.g, u, s.th[u]); }
      }
    }
  }

  lemma {:induction false} RunInv(run: seq<State>, n: nat)
    requires Run(run) && n < |run|
    ensures Inv(run[n])
  {
    if n == 0 {
      assert Init(run[0]);
    } else {
      var m := n - 1;
      RunInv(run, m);
      assert Next(run[m], run[m + 1]);
      NextKeepsInv(run[m], run[n]);
    }
  }

  // ----- abstract memory -----

  function AbsWord(g: Shared, w: Word): nat {
    match w
    case Val(v) => v
    case DcssTag(k) =>
      if k !in g.ops then 0
      else if g.ops[k].status.Succeeded? then g.ops[k].body.new2
      else g.ops[k].body.old2
  }

  /** A tag stands for old2 until its operation succeeds and for new2 from then on. */
  function Abs(g: Shared): seq<nat> {
    seq(|g.mem|, (a: nat) requires a < |g.mem| => AbsWord(g, g.mem[a]))
  }

  ghost predicate Commits(g: Shared, g': Shared, k: Tag) {
    && k in g.ops && g.ops[k].status.Undecided?
    && k in g'.ops && g'.ops[k].status.Succeeded?
  }

  /** Helpers change abstract memory only by deciding an operation, and then only addr2. */
  ghost predicate StepEffect(g: Shared, g': Shared) {
    && (forall k :: Commits(g, g', k) ==>
          && g.ops[k].body.addr2 < |g.mem| && g.mem[g.ops[k].body.addr2] == DcssTag(k)
          && Abs(g)[g.ops[k].body.addr2] == g.ops[k].body.old2
          && Abs(g') == Abs(g)[g.ops[k].body.addr2 := g.ops[k].body.new2])
    && ((forall k :: !Commits(g, g', k)) ==> Abs(g') == Abs(g))
  }

  lemma QuietEffect(g: Shared, g': Shared)
    requires |g'.mem| == |g.mem|
    requires forall a: nat :: a < |g.mem| ==> AbsWord(g', g'.mem[a]) == AbsWord(g, g.mem[a])
    requires forall k :: !Commits(g, g', k)
    ensures StepEffect(g, g')
  {
    assert Abs(g') == Abs(g);
  }

  lemma CasMutEffect(g: Shared, T: Thread, t: nat, g': Shared, T': Thread)
    requires Before(g, t, T) && DoCasMut(g, T, g', T')
    ensures StepEffect(g, g')
  {
    var k := T.slot.tag;
    assert OpOk(g, k);
    var a := g.ops[k].body.addr2;
    forall b: nat | b < |g.mem| && b != a ensures AbsWord(g', g'.mem[b]) == AbsWord(g, g.mem[b]) {
      assert WordOk(g, b);
    }
    if Commits(g, g', k) {
      assert Abs(g') == Abs(g)[a := g.ops[k].body.new2];
    } else {
      QuietEffect(g, g');
    }
  }

  lemma StepRefines(g: Shared, T: Thread, t: nat, g': Shared, T': Thread)
    requires Before(g, t, T) && ThreadStep(g, T, t, g', T')
    ensures StepEffect(g, g')
  {
    if DoCasMut(g, T, g', T') {
      CasMutEffect(g, T, t, g', T');
    } else {
      if !T.slot.Free? { assert OpOk(g, T.slot.tag); }
      if Publish(g, T, t, g', T') {
        var k0 := Tag(t, g.desc[t].seqno + 1);
        assert k0 !in g.ops by { assert k0 in g.ops ==> OpOk(g, k0); }
      }
      if Own(g, t) in g.ops { assert OpOk(g, Own(g, t)); }
      forall b: nat | b < |g.mem| ensures AbsWord(g', g'.mem[b]) == AbsWord(g, g.mem[b]) { assert WordOk(g, b); }
      QuietEffect(g, g');
    }
  }

  /** Apart from the program's own stores, abstract memory changes only when an operation succeeds. */
  lemma NextRefines(s: State, s': State)
    requires Inv(s) && Next(s, s') && !StoreStep(s, s')
    ensures StepEffect(s.g, s'.g)
  {
    var t: nat :| StepOf(s, s', t);
    assert ThreadOk(s.g, t, s.th[t]);
    StepRefines(s.g, s.th[t], t, s'.g, s'.th[t]);
  }

  // ----- over whole runs -----

  lemma RunStep(run: seq<State>, n: nat)
    requires Run(run) && n + 1 < |run|
    ensures Inv(run[n]) && Inv(run[n + 1]) && Rely(run[n].g, run[n + 1].g) && Next(run[n], run[n + 1])
  {
    RunInv(run, n);
    RunInv(run, n + 1);
    assert Next(run[n], run[n + 1]);
    NextKeepsInv(run[n], run[n + 1]);
  }

  /** addr2 holds the tag of the undecided operation k and addr1 holds old1. */
  ghost predicate BothMatch(s: State, k: Tag) {
    && k in s.g.ops && s.g.ops[k].status.Undecided?
    && var b := s.g.ops[k].body;
       b.addr1 < |s.g.mem| && b.addr2 < |s.g.mem| && s.g.mem[b.addr1] == Val(b.old1) && s.g.mem[b.addr2] == DcssTag(k)
  }

  /** addr2 holds the tag of the undecided operation k and addr1 holds something else. */
  ghost predicate FirstDiffers(s: State, k: Tag) {
    && k in s.g.ops && s.g.ops[k].status.Undecided?
    && var b := s.g.ops[k].body;
       b.addr1 < |s.g.mem| && b.addr2 < |s.g.mem| && s.g.mem[b.addr1] != Val(b.old1) && s.g.mem[b.addr2] == DcssTag(k)
  }

  predicate Matched(g: Shared, k: Tag) { k in g.ops && g.ops[k].matched }

  predicate Mismatched(g: Shared, k: Tag) { k in g.ops && g.ops[k].mismatched }

  lemma OnlyReadsNote(g: Shared, T: Thread, t: nat, g': Shared, T': Thread, k: Tag)
    requires t < |g.desc| && ThreadStep(g, T, t, g', T') && !DoReadAddr1(g, T, g', T')
    ensures Matched(g', k) ==> Matched(g, k)
    ensures Mismatched(g', k) ==> Mismatched(g, k)
  {
  }

  lemma MatchStep(s: State, s': State, k: Tag)
    requires Inv(s) && Next(s, s')
    ensures Matched(s'.g, k) && !Matched(s.g, k) ==> k in s.g.ops
    ensures Mismatched(s'.g, k) && !Mismatched(s.g, k) ==> k in s.g.ops
    ensures Matched(s'.g, k) && !Matched(s.g, k) && s.g.ops[k].status.Undecided? ==> BothMatch(s, k)
    ensures Mismatched(s'.g, k) && !Mismatched(s.g, k) && s.g.ops[k].status.Undecided? ==> FirstDiffers(s, k)
  {
    if !StoreStep(s, s') {
      var t: nat :| StepOf(s, s', t);
      if DoReadAddr1(s.g, s.th[t], s'.g, s'.th[t]) {
        assert ThreadOk(s.g, t, s.th[t]);
      } else {
        OnlyReadsNote(s.g, s.th[t], t, s'.g, s'.th[t], k);
      }
    }
  }

  lemma {:induction false} MatchInstant(run: seq<State>, n: nat, k: Tag) returns (p: nat)
    requires Run(run) && n < |run| && Matched(run[n].g, k) && !run[n].g.ops[k].status.Failed?
    ensures p < n && BothMatch(run[p], k)
  {
    assert n > 0 by { assert Init(run[0]); }
    RunStep(run, n - 1);
    MatchStep(run[n - 1], run[n], k);
    if k in run[n - 1].g.ops { assert OpEvolves(run[n - 1].g, run[n].g, k) && OpOk(run[n - 1].g, k); }
    if Matched(run[n - 1].g, k) { p := MatchInstant(run, n - 1, k); } else { p := n - 1; }
  }

  lemma {:induction false} MismatchInstant(run: seq<State>, n: nat, k: Tag) returns (p: nat)
    requires Run(run) && n < |run| && Mismatched(run[n].g, k) && !run[n].g.ops[k].status.Succeeded?
    ensures p < n && FirstDiffers(run[p], k)
  {
    assert n > 0 by { assert Init(run[0]); }
    RunStep(run, n - 1);
    MatchStep(run[n - 1], run[n], k);
    if k in run[n - 1].g.ops { assert OpEvolves(run[n - 1].g, run[n].g, k) && OpOk(run[n - 1].g, k); }
    if Mismatched(run[n - 1].g, k) { p := MismatchInstant(run, n - 1, k); } else { p := n - 1; }
  }

  /** Thread t is about to return r from its operation k. */
  ghost predicate Returns(s: State, t: nat, k: Tag, r: Result) {
    t < |s.th| == |s.g.desc| && s.th[t].pc == Done(r) && k == Own(s.g, t)
  }

  /** A call that reports r at addr2 saw r there, not old2, and its tag never reached memory. */
  lemma {:induction false} DcssFailedAddr2(run: seq<State>, n: nat, t: nat, k: Tag, r: nat) returns (p: nat)
    requires Run(run) && n < |run| && Returns(run[n], t, k, FailedAddr2(r))
    ensures k in run[n].g.ops && !run[n].g.ops[k].installed
    ensures p < n && k in run[p].g.ops && run[p].g.ops[k].body == run[n].g.ops[k].body
    ensures run[p].g.ops[k].body.addr2 < |run[p].g.mem|
    ensures run[p].g.mem[run[p].g.ops[k].body.addr2] == Val(r) && r != run[p].g.ops[k].body.old2
  {
    assert n > 0 by { assert Init(run[0]); }
    p := n - 1;
    RunStep(run, p);
    var s, s' := run[p], run[n];
    assert ThreadOk(s'.g, t, s'.th[t]) && ThreadOk(s.g, t, s.th[t]);
    FailedAddr2Step(s, s', t, r);
    if s.th[t].pc == Done(FailedAddr2(r)) {
      p := DcssFailedAddr2(run, n - 1, t, k, r);
      assert OpEvolves(s.g, s'.g, k);
    }
  }

  lemma FailedAddr2Step(s: State, s': State, t: nat, r: nat)
    requires Inv(s) && Inv(s') && Next(s, s') && t < |s.th| == |s'.th| && s'.th[t].pc == Done(FailedAddr2(r))
    ensures s.g.desc[t].seqno == s'.g.desc[t].seqno
    ensures s.th[t].pc != s'.th[t].pc ==>
              && Own(s.g, t) in s.g.ops && Own(s.g, t) in s'.g.ops
              && s'.g.ops[Own(s.g, t)].body == s.g.ops[Own(s.g, t)].body
              && var b := s.g.ops[Own(s.g, t)].body;
                 b.addr2 < |s.g.mem| && s.g.mem[b.addr2] == Val(r) && r != b.old2
  {
    assert ThreadOk(s.g, t, s.th[t]);
    if !StoreStep(s, s') {
      var u: nat :| StepOf(s, s', u);
      assert ThreadOk(s.g, u, s.th[u]);
      StepKeeps(s.g, s.th[u], u, s'.g, s'.th[u]);
      if u == t && s.th[t].pc != s'.th[t].pc {
        OnlyTryCasFailsAtAddr2(s.g, s.th[t], t, s'.g, s'.th[t], r);
        assert OpOk(s.g, Own(s.g, t));
      }
    }
  }

  lemma OnlyTryCasFailsAtAddr2(g: Shared, T: Thread, t: nat, g': Shared, T': Thread, r: nat)
    requires t < |g.desc| && ThreadStep(g, T, t, g', T') && T.pc != T'.pc == Done(FailedAddr2(r))
    ensures DoTryCas(g, T, t, g', T')
  {
  }

  // ----- agreement, and the end of a tag -----

  /** All helpers that still find the tag in memory agree on the outcome. */
  lemma HelpersAgree(run: seq<State>, n: nat, t: nat, u: nat)
    requires Run(run) && n < |run| && t < |run[n].th| && u < |run[n].th|
    requires run[n].th[t].slot.Finish? && run[n].th[u].slot.Finish? && run[n].th[t].slot.tag == run[n].th[u].slot.tag
    requires exists a :: 0 <= a < |run[n].g.mem| && run[n].g.mem[a] == DcssTag(run[n].th[t].slot.tag)
    ensures run[n].th[t].slot.succ == run[n].th[u].slot.succ
    ensures run[n].th[t].slot.body == run[n].th[u].slot.body
  {
    RunInv(run, n);
    var g := run[n].g;
    var a: nat :| a < |g.mem| && g.mem[a] == DcssTag(run[n].th[t].slot.tag);
    assert WordOk(g, a) && ThreadOk(g, t, run[n].th[t]) && ThreadOk(g, u, run[n].th[u]);
  }

  /** The owner of k has returned from it, or is about to. */
  ghost predicate OwnerDone(s: State, k: Tag) {
    && k in s.g.ops && k.tid < |s.g.desc| == |s.th|
    && (k.seqno < s.g.desc[k.tid].seqno
        || (k == Own(s.g, k.tid) && (Outside(s.th[k.tid].pc) || s.th[k.tid].pc.Done?)))
  }

  lemma OwnerDoneNotInMemory(s: State, k: Tag, a: nat)
    requires Inv(s) && OwnerDone(s, k) && a < |s.g.mem|
    ensures s.g.mem[a] != DcssTag(k)
  {
    assert OpOk(s.g, k) && WordOk(s.g, a) && ThreadOk(s.g, k.tid, s.th[k.tid]);
  }

  lemma OwnerDoneStays(s: State, s': State, k: Tag)
    requires Inv(s) && Next(s, s') && OwnerDone(s, k)
    ensures OwnerDone(s', k)
  {
    NextKeepsInv(s, s');
    assert OpEvolves(s.g, s'.g, k);
  }

  /** Once its owner is done with an operation, its tag never appears in memory again. */
  lemma {:induction false} TagGoneForEver(run: seq<State>, m: nat, n: nat, k: Tag, a: nat)
    requires Run(run) && m <= n < |run| && OwnerDone(run[m], k) && a < |run[n].g.mem|
    ensures OwnerDone(run[n], k) && run[n].g.mem[a] != DcssTag(k)
    decreases n - m
  {
    RunInv(run, n);
    if m < n {
      RunStep(run, n - 1);
      TagGoneForEver(run, m, n - 1, k, a);
      OwnerDoneStays(run[n - 1], run[n], k);
    }
    OwnerDoneNotInMemory(run[n], k, a);
  }

  /** So a helper that took its verdict from a later operation's state field changes nothing. */
  lemma LateHelperChangesNothing(s: State, s': State, t: nat)
    requires Inv(s) && StepOf(s, s', t) && DoFinish(s.g, s.th[t], s'.g, s'.th[t]) && OwnerDone(s, s.th[t].slot.tag)
    ensures s'.g == s.g
  {
    OwnerDoneNotInMemory(s, s.th[t].slot.tag, s.th[t].slot.body.addr2);
  }

  // ----- whole calls -----

  lemma {:induction false} RunEvolves(run: seq<State>, m: nat, n: nat, k: Tag)
    requires Run(run) && m <= n < |run| && k in run[m].g.ops
    ensures k in run[n].g.ops && run[n].g.ops[k].body == run[m].g.ops[k].body
    ensures !run[m].g.ops[k].status.Undecided? ==> run[n].g.ops[k].status == run[m].g.ops[k].status
    ensures run[m].g.ops[k].installed ==> run[n].g.ops[k].installed
    decreases n - m
  {
    if m < n {
      RunEvolves(run, m, n - 1, k);
      RunStep(run, n - 1);
      assert OpEvolves(run[n - 1].g, run[n].g, k);
    }
  }

  /** The step takes the second word of operation k from old2 to new2 and changes nothing else. */
  ghost predicate TakesEffect(g: Shared, g': Shared, k: Tag) {
    && Commits(g, g', k)
    && var b := g.ops[k].body;
       && b.addr2 < |g.mem| && g.mem[b.addr2] == DcssTag(k) && Abs(g)[b.addr2] == b.old2
       && Abs(g') == Abs(g)[b.addr2 := b.new2]
  }

  lemma CommitTakesEffect(s: State, s': State, k: Tag)
    requires Inv(s) && Next(s, s') && Commits(s.g, s'.g, k)
    ensures TakesEffect(s.g, s'.g, k)
  {
    NextRefines(s, s');
  }

  /** A step at which a decided operation can no longer commit. */
  lemma CommitsOnce(run: seq<State>, p: nat, q: nat, k: Tag)
    requires Run(run) && p < q && q + 1 < |run| && Commits(run[p].g, run[p + 1].g, k)
    ensures !Commits(run[q].g, run[q + 1].g, k)
  {
    RunEvolves(run, p + 1, q, k);
  }

  lemma {:induction false} SuccessHasCommit(run: seq<State>, m: nat, n: nat, k: Tag) returns (p: nat)
    requires Run(run) && m <= n < |run| && k !in run[m].g.ops
    requires k in run[n].g.ops && run[n].g.ops[k].status.Succeeded?
    ensures m <= p < n && TakesEffect(run[p].g, run[p + 1].g, k)
    decreases n - m
  {
    p := n - 1;
    RunStep(run, p);
    if k in run[p].g.ops && run[p].g.ops[k].status.Succeeded? {
      p := SuccessHasCommit(run, m, n - 1, k);
    } else {
      PublishedUndecided(run[p], run[n], k);
      CommitTakesEffect(run[p], run[n], k);
    }
  }

  lemma PublishedUndecided(s: State, s': State, k: Tag)
    requires Inv(s) && Inv(s') && Next(s, s') && Rely(s.g, s'.g) && k in s'.g.ops && s'.g.ops[k].status.Succeeded?
    requires k in s.g.ops ==> !s.g.ops[k].status.Succeeded?
    ensures Commits(s.g, s'.g, k)
  {
    if k in s.g.ops {
      assert OpEvolves(s.g, s'.g, k);
    } else {
      assert OpOk(s'.g, k);
      NewNotInstalled(s, s', k);
    }
  }

  lemma NewNotInstalled(s: State, s': State, k: Tag)
    requires Inv(s) && Next(s, s') && k in s'.g.ops && k !in s.g.ops
    ensures !s'.g.ops[k].installed
  {
    if !StoreStep(s, s') {
      var t: nat :| StepOf(s, s', t);
      OnlyPublishAdds(s.g, s.th[t], t, s'.g, s'.th[t], k);
    }
  }

  lemma OnlyPublishAdds(g: Shared, T: Thread, t: nat, g': Shared, T': Thread, k: Tag)
    requires t < |g.desc| && ThreadStep(g, T, t, g', T') && k in g'.ops && k !in g.ops
    ensures !g'.ops[k].installed
  {
  }

  /** A call that returns success takes effect in exactly one step p, and at some instant q, no later than p,
      addr1 held old1 while addr2 held the tag.  Both are of the call: m is a state before the call published the
      operation, n the state at its return. */
  lemma DcssSuccess(run: seq<State>, m: nat, n: nat, t: nat, k: Tag) returns (p: nat, q: nat)
    requires Run(run) && m <= n < |run| && k !in run[m].g.ops && Returns(run[n], t, k, Success)
    ensures m < q <= p < n && BothMatch(run[q], k) && TakesEffect(run[p].g, run[p + 1].g, k)
    ensures k in run[n].g.ops && run[p].g.ops[k].body == run[q].g.ops[k].body == run[n].g.ops[k].body
    ensures forall i: nat :: i + 1 < |run| && Commits(run[i].g, run[i + 1].g, k) ==> i == p
  {
    RunInv(run, n);
    assert ThreadOk(run[n].g, t, run[n].th[t]);
    p := SuccessHasCommit(run, m, n, k);
    RunInv(run, p + 1);
    assert OpOk(run[p + 1].g, k);
    q := MatchInstant(run, p + 1, k);
    if q <= m { RunEvolves(run, q, m, k); }
    RunEvolves(run, q, p, k);
    RunEvolves(run, p, n, k);
    forall i: nat | i + 1 < |run| && Commits(run[i].g, run[i + 1].g, k) ensures i == p {
      if i < p { CommitsOnce(run, i, p, k); } else if p < i { CommitsOnce(run, p, i, k); }
    }
  }

  lemma UninstalledStep(s: State, s': State, k: Tag)
    requires Inv(s) && Next(s, s') && OwnerDone(s, k) && !s.g.ops[k].installed
    ensures k in s'.g.ops && !s'.g.ops[k].installed
  {
    NextKeepsInv(s, s');
    assert OpEvolves(s.g, s'.g, k);
    if !StoreStep(s, s') {
      var t: nat :| StepOf(s, s', t);
      OnlyOwnerInstalls(s.g, s.th[t], t, s'.g, s'.th[t], k);
    }
  }

  lemma OnlyOwnerInstalls(g: Shared, T: Thread, t: nat, g': Shared, T': Thread, k: Tag)
    requires t < |g.desc| && ThreadStep(g, T, t, g', T') && k in g.ops && k in g'.ops
    requires k == Own(g, t) ==> !T.pc.TryCas?
    requires k != Tag(t, g.desc[t].seqno + 1)
    ensures g'.ops[k].installed ==> g.ops[k].installed
  {
  }

  lemma {:induction false} StaysUninstalled(run: seq<State>, m: nat, n: nat, k: Tag)
    requires Run(run) && m <= n < |run| && OwnerDone(run[m], k) && !run[m].g.ops[k].installed
    ensures OwnerDone(run[n], k) && !run[n].g.ops[k].installed
    decreases n - m
  {
    if m < n {
      StaysUninstalled(run, m, n - 1, k);
      RunStep(run, n - 1);
      OwnerDoneStays(run[n - 1], run[n], k);
      UninstalledStep(run[n - 1], run[n], k);
    }
  }

  /** A call that reports a failure, at whichever word, never takes effect. */
  lemma DcssCallFails(run: seq<State>, n: nat, t: nat, k: Tag, r: Result, q: nat)
    requires Run(run) && n < |run| && Returns(run[n], t, k, r) && (r.FailedAddr1? || r.FailedAddr2?) && q + 1 < |run|
    ensures !Commits(run[q].g, run[q + 1].g, k)
  {
    RunInv(run, n);
    assert ThreadOk(run[n].g, t, run[n].th[t]);
    if Commits(run[q].g, run[q + 1].g, k) {
      RunInv(run, q + 1);
      assert OpOk(run[q + 1].g, k);
      if q + 1 <= n {
        RunEvolves(run, q + 1, n, k);
      } else if r.FailedAddr1? {
        RunEvolves(run, n, q, k);
      } else {
        StaysUninstalled(run, n, q + 1, k);
      }
    }
  }

  /** Thread t, helping its own operation k, has read val1 at the first address, or is about to report it. */
  ghost predicate HasRead(s: State, t: nat, k: Tag, val1: Word) {
    && t < |s.th| == |s.g.desc| && k == Own(s.g, t)
    && var T := s.th[t];
       || T.pc == Done(FailedAddr1(val1))
       || (T.pc.OwnHelp? && (T.slot.ReadMut? || T.slot.CasMut? || T.slot.Finish?) && T.slot.val1 == val1)
  }

  /** In this state the owner of k is about to read val1 at the first address. */
  ghost predicate Reads(s: State, t: nat, k: Tag, val1: Word) {
    && t < |s.th| && s.th[t].pc.OwnHelp? && s.th[t].slot.ReadAddr1? && s.th[t].slot.tag == k
    && k in s.g.ops && s.g.ops[k].installed
    && s.g.ops[k].body.addr1 < |s.g.mem| && s.g.mem[s.g.ops[k].body.addr1] == val1
  }

  lemma ReadStep(s: State, s': State, t: nat, k: Tag, val1: Word)
    requires Inv(s) && Next(s, s') && HasRead(s', t, k, val1)
    ensures HasRead(s, t, k, val1) || Reads(s, t, k, val1)
  {
    if StoreStep(s, s') {
      assert s'.g.desc == s.g.desc;
    } else {
      var u: nat :| StepOf(s, s', u);
      StepKeeps(s.g, s.th[u], u, s'.g, s'.th[u]);
      if u == t {
        assert ThreadOk(s.g, t, s.th[t]);
        OwnReadStep(s, s', t, k, val1);
      } else {
        assert Untouched(s.g, s'.g, t);
      }
    }
  }

  lemma OwnReadStep(s: State, s': State, t: nat, k: Tag, val1: Word)
    requires StepOf(s, s', t) && ThreadOk(s.g, t, s.th[t]) && HasRead(s', t, k, val1)
    ensures HasRead(s, t, k, val1) || Reads(s, t, k, val1)
  {
  }

  /** The value reported for the first address is the one the owner itself read there while its tag was
      installed.  DcssWitness has a run in which that is old1. */
  lemma {:induction false} ReportedVal1(run: seq<State>, n: nat, t: nat, k: Tag, val1: Word) returns (p: nat)
    requires Run(run) && n < |run| && HasRead(run[n], t, k, val1)
    ensures p < n && Reads(run[p], t, k, val1)
  {
    assert n > 0 by { assert Init(run[0]); }
    p := n - 1;
    RunStep(run, p);
    ReadStep(run[p], run[n], t, k, val1);
    if HasRead(run[p], t, k, val1) { p := ReportedVal1(run, n - 1, t, k, val1); }
  }

  /** A call that reports val1 for the first address: at some instant p addr2 held the tag while addr1 did not
      hold old1, and at some instant q of the call its owner read val1 at addr1. */
  lemma DcssFailedAddr1(run: seq<State>, n: nat, t: nat, k: Tag, val1: Word) returns (p: nat, q: nat)
    requires Run(run) && n < |run| && Returns(run[n], t, k, FailedAddr1(val1))
    ensures p < n && FirstDiffers(run[p], k)
    ensures q < n && Reads(run[q], t, k, val1)
  {
    RunInv(run, n);
    assert ThreadOk(run[n].g, t, run[n].th[t]);
    assert OpOk(run[n].g, k);
    p := MismatchInstant(run, n, k);
    q := ReportedVal1(run, n, t, k, val1);
  }
}
