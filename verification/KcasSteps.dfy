/** Every step of the KCAS machine keeps the invariant. */
module KcasSteps {
  import opened KcasModel
  import opened KcasInvariant

  /** What has to be shown of a step of thread t. */
  ghost predicate Keeps(g: Shared, t: nat, g': Shared, T': Thread) {
    && Good(g') && Rely(g, g') && ThreadOk(g', t, T')
    && forall u: nat :: u < |g.kd| && u != t ==> Untouched(g, g', u)
  }

  ghost predicate Before(g: Shared, t: nat, T: Thread) {
    Good(g) && t < |g.kd| == |g.rd| && ThreadOk(g, t, T)
  }

  lemma RelyRefl(g: Shared)
    requires Good(g)
    ensures Rely(g, g)
  {
  }

  /** Frames that a step leaves alone keep what they know. */
  lemma FramesStable(g: Shared, g': Shared, t: nat, T: Thread)
    requires Good(g) && Rely(g, g') && ThreadOk(g, t, T)
    ensures forall d: nat :: d < |T.stack| ==> FrameOk(g', T.stack[d])
  {
    forall d: nat | d < |T.stack| ensures FrameOk(g', T.stack[d]) { FrameStable(g, g', T.stack[d]); }
  }

  /** The running frame moves to pc, its slot to sl; the frames below are where they were. */
  lemma ThreadAfter(g: Shared, t: nat, T: Thread, g': Shared, pc: Pc, sl: Slot)
    requires Before(g, t, T) && Rely(g, g') && T.stack != []
    requires FrameOk(g', Top(T).(pc := pc)) && SlotOk(g', sl)
    requires TopOk(g', t, Goto(T, pc).(slot := sl))
    requires g'.kd[t].seqno == g.kd[t].seqno && (T.building ==> g'.kd[t].state.Undecided?)
    requires forall k :: k in g'.ops && k.tid == t ==> k in g.ops
    ensures ThreadOk(g', t, Goto(T, pc).(slot := sl))
  {
    var T' := Goto(T, pc).(slot := sl);
    FramesStable(g, g', t, T);
    assert forall d: nat :: d < |T.stack| - 1 ==> T'.stack[d] == T.stack[d];
    forall k | k in g'.ops && k.tid == t && g'.ops[k].status.Undecided?
      ensures |T'.stack| > 0 && T'.stack[0].tag == k && !T'.stack[0].helping
    {
      assert OpEvolves(g, g', k);
    }
  }

  /** A step that only moves the running frame of t to another program point. */
  lemma LocalGoto(g: Shared, t: nat, T: Thread, pc: Pc)
    requires Before(g, t, T) && Running(T)
    requires !pc.Fill? && !pc.TryCas? && !pc.OwnHelp?
    requires FrameOk(g, Top(T).(pc := pc))
    ensures Keeps(g, t, g, Goto(T, pc))
  {
    var T' := Goto(T, pc);
    assert forall d: nat :: d < |T.stack| - 1 ==> T'.stack[d] == T.stack[d];
  }

  lemma StepReading(g: Shared, T: Thread, t: nat, g': Shared, T': Thread)
    requires Before(g, t, T) && (CallRead(g, T, g', T') || ReturnRead(g, T, g', T'))
    ensures Keeps(g, t, g', T')
  {
  }

  lemma StepLoad(g: Shared, T: Thread, t: nat, g': Shared, T': Thread)
    requires Before(g, t, T) && Load(g, T, g', T')
    ensures Keeps(g, t, g', T')
  {
    assert WordOk(g, T.read.a);
    match g.mem[T.read.a]
    case KcasTag(k) => assert OpOk(g, k);
    case RdcssTag(r) => assert RopOk(g, r);
    case Val(_) =>
  }

  lemma StepCopyWord(g: Shared, T: Thread, t: nat, f: Field, g': Shared, T': Thread)
    requires Before(g, t, T) && CopyWord(g, T, f, g', T')
    ensures Keeps(g, t, g', T')
  {
    assert FrameOk(g, Top(T));
    assert OpOk(g, Top(T).tag);
    LocalGoto(g, t, T, T'.stack[|T.stack| - 1].pc);
  }

  lemma StepValidate(g: Shared, T: Thread, t: nat, g': Shared, T': Thread)
    requires Before(g, t, T) && Validate(g, T, g', T')
    ensures Keeps(g, t, g', T')
  {
    var f := Top(T);
    assert FrameOk(g, f);
    var snap := f.pc.snap;
    var op := g.ops[f.tag];
    assert OpOk(g, f.tag);
    if g.kd[f.tag.tid].seqno == f.tag.seqno {
      assert Decode(snap) == op.entries;
      assert FrameOk(g, Frame(f.tag, snap[FSeq], Decode(snap), true, ReadState));
      assert forall d: nat :: d < |T.stack| - 1 ==> T'.stack[d] == T.stack[d];
    } else {
      PopOk(g, t, T);
    }
  }

  /** Dropping a helping frame, or the owner's once the operation is decided. */
  lemma PopOk(g: Shared, t: nat, T: Thread)
    requires Before(g, t, T) && Running(T)
    requires Top(T).helping || !g.ops[Top(T).tag].status.Undecided?
    requires Top(T).tag in g.ops
    ensures Keeps(g, t, g, Pop(T))
  {
    var T' := Pop(T);
    assert forall d: nat :: d < |T.stack| - 1 ==> T'.stack[d] == T.stack[d];
  }

  lemma StepDoReadState(g: Shared, T: Thread, t: nat, g': Shared, T': Thread)
    requires Before(g, t, T) && DoReadState(g, T, g', T')
    ensures Keeps(g, t, g', T')
  {
    assert FrameOk(g, Top(T));
    assert OpOk(g, Top(T).tag);
    LocalGoto(g, t, T, T'.stack[|T.stack| - 1].pc);
  }

  lemma StepLoopDone(g: Shared, T: Thread, t: nat, g': Shared, T': Thread)
    requires Before(g, t, T) && LoopDone(g, T, g', T')
    ensures Keeps(g, t, g', T')
  {
    assert FrameOk(g, Top(T));
    LocalGoto(g, t, T, Decide(Succeeded));
  }

  lemma StepDecideRead(g: Shared, T: Thread, t: nat, g': Shared, T': Thread)
    requires Before(g, t, T) && (DecideRead(g, T, g', T') || DoDecideRetry(g, T, g', T'))
    ensures Keeps(g, t, g', T')
  {
    assert FrameOk(g, Top(T));
    assert OpOk(g, Top(T).tag);
    LocalGoto(g, t, T, T'.stack[|T.stack| - 1].pc);
  }

  lemma StepDoReadOutcome(g: Shared, T: Thread, t: nat, g': Shared, T': Thread)
    requires Before(g, t, T) && DoReadOutcome(g, T, g', T')
    ensures Keeps(g, t, g', T')
  {
    assert FrameOk(g, Top(T));
    assert OpOk(g, Top(T).tag);
    LocalGoto(g, t, T, T'.stack[|T.stack| - 1].pc);
  }

  lemma StepDoReturn(g: Shared, T: Thread, t: nat, g': Shared, T': Thread)
    requires Before(g, t, T) && DoReturn(g, T, g', T')
    ensures Keeps(g, t, g', T')
  {
    assert FrameOk(g, Top(T));
    PopOk(g, t, T);
  }

  lemma StepOwnDone(g: Shared, T: Thread, t: nat, g': Shared, T': Thread)
    requires Before(g, t, T) && OwnDone(g, T, g', T')
    ensures Keeps(g, t, g', T')
  {
    var f := Top(T);
    assert FrameOk(g, f);
    assert RopOk(g, Own(g, t));
    LocalGoto(g, t, T, Entry(f.pc.i + 1));
  }

  // ----- rdcssHelp up to its compare-and-swap -----

  lemma SlotStep(g: Shared, t: nat, T: Thread, sl: Slot)
    requires Before(g, t, T) && !T.slot.Free? && SlotOk(g, sl)
    requires sl.Free? ==> T.slot.RCopy?
    requires T.slot.RRead? || T.slot.RFinish? ==> (sl.RRead? || sl.RFinish?) && sl.tag == T.slot.tag
    ensures Keeps(g, t, g, T.(slot := sl))
  {
  }

  lemma StepCopyRWord(g: Shared, T: Thread, t: nat, g': Shared, T': Thread)
    requires Before(g, t, T) && CopyRWord(g, T, g', T')
    ensures Keeps(g, t, g', T')
  {
    assert RopOk(g, T.slot.tag);
    SlotStep(g, t, T, T'.slot);
  }

  lemma StepValidateR(g: Shared, T: Thread, t: nat, g': Shared, T': Thread)
    requires Before(g, t, T) && ValidateR(g, T, g', T')
    ensures Keeps(g, t, g', T')
  {
    assert RopOk(g, T.slot.tag);
    SlotStep(g, t, T, T'.slot);
  }

  lemma StepDoRRead(g: Shared, T: Thread, t: nat, g': Shared, T': Thread)
    requires Before(g, t, T) && DoRRead(g, T, g', T')
    ensures Keeps(g, t, g', T')
  {
    assert RopOk(g, T.slot.tag);
    assert OpOk(g, T.slot.body.old1);
    SlotStep(g, t, T, T'.slot);
  }

  // ----- writes to a thread's own descriptors -----

  /** Nothing a rop or a word of memory depends on has changed, except descriptors of later use. */
  ghost predicate SameRecords(g: Shared, g': Shared) {
    && Rely(g, g') && g'.mem == g.mem
    && (forall k :: k in g.ops ==> k in g'.ops && g'.ops[k].status == g.ops[k].status)
    && (forall r :: r in g.rops ==> r in g'.rops && g'.rops[r] == g.rops[r])
    && (forall r :: r in g.rops && r.tid < |g.rd| && g.rd[r.tid] != g'.rd[r.tid] ==> r.seqno < g'.rd[r.tid].seqno)
  }

  lemma RecordsKept(g: Shared, g': Shared)
    requires Good(g) && SameRecords(g, g')
    ensures forall r :: r in g.rops ==> r in g'.rops && RopOk(g', r)
    ensures forall a: nat :: a < |g'.mem| ==> WordOk(g', a)
  {
    forall r | r in g.rops ensures RopOk(g', r) {
      assert RopOk(g, r) && RopEvolves(g, g', r);
      var k := g.rops[r].body.old1;
      assert OpEvolves(g, g', k);
      PassedStable(g, g', k, g.rops[r].index);
    }
    forall a: nat | a < |g.mem| ensures WordOk(g', a) {
      assert WordOk(g, a);
      if g.mem[a].KcasTag? {
        assert OpEvolves(g, g', g.mem[a].k);
        PassedStable(g, g', g.mem[a].k, 1);
      }
    }
  }

  lemma StepStart(g: Shared, T: Thread, t: nat, g': Shared, T': Thread)
    requires Before(g, t, T) && Start(g, T, t, g', T')
    ensures Keeps(g, t, g', T')
  {
    StartGood(g, T, t, g', T');
    assert Tag(t, g'.kd[t].seqno) !in g.ops by {
      assert Tag(t, g'.kd[t].seqno) in g.ops ==> OpOk(g, Tag(t, g'.kd[t].seqno));
    }
  }

  lemma StartGood(g: Shared, T: Thread, t: nat, g': Shared, T': Thread)
    requires Before(g, t, T) && Start(g, T, t, g', T')
    ensures Good(g') && Rely(g, g')
    ensures forall u: nat :: u < |g.kd| && u != t ==> Untouched(g, g', u)
  {
    forall k | k in g.ops ensures OpOk(g', k) { assert OpOk(g, k); }
    RecordsKept(g, g');
  }

  lemma StepPrepare(g: Shared, T: Thread, t: nat, g': Shared, T': Thread)
    requires Before(g, t, T) && Prepare(g, T, t, g', T')
    ensures Keeps(g, t, g', T')
  {
    PrepareGood(g, T, t, g', T');
  }

  lemma PrepareGood(g: Shared, T: Thread, t: nat, g': Shared, T': Thread)
    requires Before(g, t, T) && Prepare(g, T, t, g', T')
    ensures Good(g') && Rely(g, g')
    ensures forall u: nat :: u < |g.kd| && u != t ==> Untouched(g, g', u)
  {
    forall k | k in g.ops ensures OpOk(g', k) { assert OpOk(g, k); }
    RecordsKept(g, g');
  }

  lemma StepExecute(g: Shared, T: Thread, t: nat, g': Shared, T': Thread)
    requires Before(g, t, T) && Execute(g, T, t, g', T')
    ensures Keeps(g, t, g', T')
  {
    ExecuteGood(g, T, t, g', T');
    assert OpOk(g', Tag(t, g.kd[t].seqno + 1));
  }

  lemma ExecuteGood(g: Shared, T: Thread, t: nat, g': Shared, T': Thread)
    requires Before(g, t, T) && Execute(g, T, t, g', T')
    ensures Good(g') && Rely(g, g')
    ensures forall u: nat :: u < |g.kd| && u != t ==> Untouched(g, g', u)
  {
    var k0 := Tag(t, g.kd[t].seqno + 1);
    assert k0 !in g.ops by { assert k0 in g.ops ==> OpOk(g, k0); }
    forall k | k in g'.ops ensures OpOk(g', k) { if k != k0 { assert OpOk(g, k); } }
    RecordsKept(g, g');
  }

  /** The owner writes its RDCSS descriptor while no published tag denotes it. */
  lemma WriteRdcss(g: Shared, t: nat, d: RDesc, g': Shared)
    requires Good(g) && t < |g.rd| && g' == g.(rd := g.rd[t := d])
    requires d.seqno >= g.rd[t].seqno && (Own(g, t) in g.rops ==> d.seqno > g.rd[t].seqno)
    ensures Good(g') && Rely(g, g')
    ensures forall u: nat :: u < |g.kd| && u < |g.rd| && u != t ==> Untouched(g, g', u)
  {
    forall k | k in g.ops ensures OpOk(g', k) { assert OpOk(g, k); }
    forall r | r in g.rops ensures r.tid == t ==> r.seqno < d.seqno { assert RopOk(g, r); }
    RecordsKept(g, g');
  }

  lemma StepNewRdcss(g: Shared, T: Thread, t: nat, g': Shared, T': Thread)
    requires Before(g, t, T) && NewRdcss(g, T, t, g', T')
    ensures Keeps(g, t, g', T')
  {
    WriteRdcss(g, t, g'.rd[t], g');
    assert FrameOk(g, Top(T));
    FrameStable(g, g', Top(T));
    assert Own(g', t) !in g.rops by { assert Own(g', t) in g.rops ==> RopOk(g, Own(g', t)); }
    ThreadAfter(g, t, T, g', Fill(Top(T).pc.i), Free);
  }

  lemma StepFillField(g: Shared, T: Thread, t: nat, g': Shared, T': Thread)
    requires Before(g, t, T) && FillField(g, T, t, g', T')
    ensures Keeps(g, t, g', T')
  {
    WriteRdcss(g, t, g'.rd[t], g');
    assert FrameOk(g, Top(T));
    FrameStable(g, g', Top(T));
    ThreadAfter(g, t, T, g', Top(T).pc, Free);
    assert T' == Goto(T, Top(T).pc).(slot := Free);
  }

  lemma StepPublishRdcss(g: Shared, T: Thread, t: nat, g': Shared, T': Thread)
    requires Before(g, t, T) && PublishRdcss(g, T, t, g', T')
    ensures Keeps(g, t, g', T')
  {
    var f := Top(T);
    PublishGood(g, T, t, g', T');
    FrameStable(g, g', f);
    ThreadAfter(g, t, T, g', TryCas(f.pc.i), Free);
  }

  lemma PublishGood(g: Shared, T: Thread, t: nat, g': Shared, T': Thread)
    requires Before(g, t, T) && PublishRdcss(g, T, t, g', T')
    ensures Good(g') && Rely(g, g') && FrameOk(g, Top(T))
    ensures forall u: nat :: u < |g.kd| && u != t ==> Untouched(g, g', u)
  {
    var f := Top(T);
    assert FrameOk(g, f);
    PublishedIsNew(g, t);
    PublishedRop(g, f, t, g');
    OpsOk(g, g');
    RecordsKept(g, g');
  }

  lemma OpsOk(g: Shared, g': Shared)
    requires Good(g) && g'.mem == g.mem && g'.kd == g.kd && g'.ops == g.ops
    ensures forall k :: k in g'.ops ==> OpOk(g', k)
  {
    forall k | k in g.ops ensures OpOk(g', k) { assert OpOk(g, k); }
  }

  lemma PublishedIsNew(g: Shared, t: nat)
    requires Good(g) && t < |g.rd|
    ensures Tag(t, g.rd[t].seqno + 1) !in g.rops
    ensures forall r :: r in g.rops ==> r.tid < |g.rd| && r.seqno <= g.rd[r.tid].seqno
  {
    forall r | r in g.rops ensures r.tid < |g.rd| && r.seqno <= g.rd[r.tid].seqno { assert RopOk(g, r); }
  }

  lemma PublishedRop(g: Shared, f: Frame, t: nat, g': Shared)
    requires Good(g) && t < |g.rd| && FrameOk(g, f) && f.pc.Fill? && f.pc.i < |f.entries| && g.rd[t].body == Target(f, f.pc.i)
    requires var d := g.rd[t];
             g' == g.(rd := g.rd[t := d.(seqno := d.seqno + 1)], rops := g.rops[Tag(t, d.seqno + 1) := Rop(d.body, f.pc.i, false)])
    ensures RopOk(g', Tag(t, g.rd[t].seqno + 1))
  {
    assert OpOk(g, f.tag);
    assert forall j: nat :: Holds(g, f.tag, j) ==> Holds(g', f.tag, j);
  }

  // ----- writes to memory -----

  /** Opening of rdcss: the tag of thread t's own RDCSS replaces the expected value. */
  ghost predicate Install(g: Shared, x: Tag, g': Shared) {
    && x in g.rops && !g.rops[x].installed && g.rops[x].body.addr2 < |g.mem|
    && g.mem[g.rops[x].body.addr2] == Val(g.rops[x].body.old2)
    && g' == g.(mem := g.mem[g.rops[x].body.addr2 := RdcssTag(x)],
                rops := g.rops[x := g.rops[x].(installed := true)])
  }

  lemma InstallRely(g: Shared, x: Tag, g': Shared)
    requires Good(g) && Install(g, x, g')
    ensures Rely(g, g') && forall k :: k in g.ops ==> OpOk(g', k)
  {
    assert forall k, j: nat :: Holds(g, k, j) ==> Holds(g', k, j);
    forall r | r in g.rops ensures RopEvolves(g, g', r) { assert RopOk(g, r); }
    forall k | k in g.ops ensures OpOk(g', k) { assert OpOk(g, k); }
  }

  lemma InstallGood(g: Shared, x: Tag, g': Shared)
    requires Good(g) && Install(g, x, g')
    ensures Good(g') && Rely(g, g')
  {
    var a := g.rops[x].body.addr2;
    InstallRely(g, x, g');
    forall r | r in g.rops ensures RopOk(g', r) {
      assert RopOk(g, r);
      PassedStable(g, g', g.rops[r].body.old1, g.rops[r].index);
    }
    forall b: nat | b < |g.mem| ensures WordOk(g', b) {
      assert WordOk(g, b);
      if b != a && g.mem[b].KcasTag? { PassedStable(g, g', g.mem[b].k, 1); }
    }
  }

  lemma StepDoTryCas(g: Shared, T: Thread, t: nat, g': Shared, T': Thread)
    requires Before(g, t, T) && DoTryCas(g, T, t, g', T')
    ensures Keeps(g, t, g', T')
  {
    var f := Top(T);
    assert FrameOk(g, f);
    var x := Own(g, t);
    assert RopOk(g, x);
    var a := g.rd[t].body.addr2;
    assert WordOk(g, a);
    match g.mem[a]
    case RdcssTag(y) => assert RopOk(g, y);
    case KcasTag(k) => TryCasFoundTag(g, T, t, k, T');
    case Val(v) =>
      if v == g.rd[t].body.old2 {
        TryCasInstalls(g, T, t, g', T');
      } else {
        Contradict(g, f.tag, g');
        FrameStable(g, g', f);
        ThreadAfter(g, t, T, g', Decide(Failed), Free);
        assert T' == Goto(T, Decide(Failed)).(slot := Free);
      }
  }

  lemma TryCasFoundTag(g: Shared, T: Thread, t: nat, k: Tag, T': Thread)
    requires Before(g, t, T) && DoTryCas(g, T, t, g, T')
    requires Top(T).tag in g.ops && Own(g, t) in g.rops && RopOk(g, Own(g, t))
    requires g.mem[g.rd[t].body.addr2] == KcasTag(k) && WordOk(g, g.rd[t].body.addr2)
    ensures Keeps(g, t, g, T')
  {
    if k == Top(T).tag { TryCasFoundOwn(g, T, t, T'); } else { TryCasFoundOther(g, T, t, k, T'); }
  }

  lemma TryCasFoundOwn(g: Shared, T: Thread, t: nat, T': Thread)
    requires Before(g, t, T) && DoTryCas(g, T, t, g, T')
    requires Top(T).tag in g.ops && Own(g, t) in g.rops && RopOk(g, Own(g, t))
    requires g.mem[g.rd[t].body.addr2] == KcasTag(Top(T).tag)
    ensures Keeps(g, t, g, T')
  {
    var f := Top(T);
    assert FrameOk(g, f);
    assert Holds(g, f.tag, f.pc.i);
    LocalGoto(g, t, T, Entry(f.pc.i + 1));
  }

  lemma TryCasFoundOther(g: Shared, T: Thread, t: nat, k: Tag, T': Thread)
    requires Before(g, t, T) && DoTryCas(g, T, t, g, T') && k != Top(T).tag
    requires Top(T).tag in g.ops && Own(g, t) in g.rops && RopOk(g, Own(g, t))
    requires g.mem[g.rd[t].body.addr2] == KcasTag(k) && WordOk(g, g.rd[t].body.addr2)
    ensures Keeps(g, t, g, T')
  {
    assert FrameOk(g, Top(T));
    LocalGoto(g, t, T, Entry(Top(T).pc.i));
    assert OpOk(g, k);
    assert FrameOk(g, Frame(k, 0, [], true, Copy(map[])));
  }

  lemma TryCasInstalls(g: Shared, T: Thread, t: nat, g': Shared, T': Thread)
    requires Before(g, t, T) && DoTryCas(g, T, t, g', T')
    requires Own(g, t) in g.rops && RopOk(g, Own(g, t))
    requires g.mem[g.rd[t].body.addr2] == Val(g.rd[t].body.old2)
    ensures Keeps(g, t, g', T')
  {
    var f := Top(T);
    var x := Own(g, t);
    InstallGood(g, x, g');
    assert FrameOk(g, f);
    FrameStable(g, g', f);
    ThreadAfter(g, t, T, g', OwnHelp(f.pc.i), RRead(x, g.rd[t].body));
    assert T' == Goto(T, OwnHelp(f.pc.i)).(slot := RRead(x, g.rd[t].body));
  }

  /** The history records that a plain value other than the expected one was read. */
  lemma Contradict(g: Shared, k: Tag, g': Shared)
    requires Good(g) && k in g.ops && g' == g.(ops := NoteContradiction(g.ops, k))
    ensures Good(g') && Rely(g, g')
    ensures forall u: nat :: u < |g.kd| && u < |g.rd| ==> Untouched(g, g', u)
  {
    assert forall l, j: nat :: Holds(g, l, j) ==> Holds(g', l, j);
    forall l | l in g.ops ensures OpOk(g', l) { assert OpOk(g, l); }
    RecordsKept(g, g');
  }

  lemma StepDoDecideCas(g: Shared, T: Thread, t: nat, g': Shared, T': Thread)
    requires Before(g, t, T) && DoDecideCas(g, T, g', T')
    ensures Keeps(g, t, g', T')
  {
    var f := Top(T);
    assert FrameOk(g, f);
    if g' == g && T' == Goto(T, DecideRetry(f.pc.ns)) {
      LocalGoto(g, t, T, DecideRetry(f.pc.ns));
    } else {
      DecideGood(g, f, f.pc.ns, g');
      FrameStable(g, g', f);
      ThreadAfter(g, t, T, g', ReadOutcome, Free);
      assert T' == Goto(T, ReadOutcome).(slot := Free);
    }
  }

  /** The status step of operation f.tag. */
  ghost predicate Decides(g: Shared, f: Frame, ns: Status, g': Shared) {
    && f.tag in g.ops && f.tag.tid < |g.kd| && Known(g, f) && Warranted(g, f, ns)
    && g.kd[f.tag.tid].seqno == f.sseq && g.kd[f.tag.tid].state.Undecided?
    && g' == g.(kd := g.kd[f.tag.tid := g.kd[f.tag.tid].(state := ns)], ops := NoteStatus(g.ops, f.tag, ns))
  }

  lemma DecideRely(g: Shared, f: Frame, ns: Status, g': Shared)
    requires Good(g) && Decides(g, f, ns, g')
    ensures Rely(g, g') && g.ops[f.tag].status.Undecided?
    ensures forall u: nat :: u < |g.kd| && u < |g.rd| ==> Untouched(g, g', u)
  {
    assert OpOk(g, f.tag);
    assert forall l, j: nat :: Holds(g, l, j) ==> Holds(g', l, j);
    forall l | l in g.ops ensures OpEvolves(g, g', l) { }
  }

  lemma DecideGood(g: Shared, f: Frame, ns: Status, g': Shared)
    requires Good(g) && Decides(g, f, ns, g')
    ensures Good(g') && Rely(g, g') && g.ops[f.tag].status.Undecided?
    ensures forall u: nat :: u < |g.kd| && u < |g.rd| ==> Untouched(g, g', u)
  {
    DecideRely(g, f, ns, g');
    forall l | l in g.ops ensures OpOk(g', l) { assert OpOk(g, l) && OpOk(g, f.tag); }
    forall r | r in g.rops ensures RopOk(g', r) {
      assert RopOk(g, r);
      PassedStable(g, g', g.rops[r].body.old1, g.rops[r].index);
    }
    forall a: nat | a < |g.mem| ensures WordOk(g', a) {
      assert WordOk(g, a);
      if g.mem[a].KcasTag? { PassedStable(g, g', g.mem[a].k, 1); }
    }
  }

  // ----- tags leave memory -----

  lemma StepDoClean(g: Shared, T: Thread, t: nat, g': Shared, T': Thread)
    requires Before(g, t, T) && DoClean(g, T, g', T')
    ensures Keeps(g, t, g', T')
  {
    var f := Top(T);
    assert FrameOk(g, f) && OpOk(g, f.tag);
    if g' == g {
      LocalGoto(g, t, T, T'.stack[|T.stack| - 1].pc);
    } else {
      var a := f.entries[f.pc.j].addr;
      CleanGood(g, f.tag, a, g'.mem[a].v, g');
      FrameStable(g, g', f);
      ThreadAfter(g, t, T, g', Clean(f.pc.j + 1, f.pc.succ), Free);
      assert T' == Goto(T, Clean(f.pc.j + 1, f.pc.succ)).(slot := Free);
    }
  }

  /** A decided operation's tag gives way to a plain value. */
  lemma CleanRely(g: Shared, k: Tag, a: nat, v: nat, g': Shared)
    requires Good(g) && k in g.ops && !g.ops[k].status.Undecided?
    requires a < |g.mem| && g.mem[a] == KcasTag(k) && g' == g.(mem := g.mem[a := Val(v)])
    ensures Rely(g, g') && forall l :: l in g.ops ==> OpOk(g', l)
  {
    forall l | l in g.ops ensures OpOk(g', l) { assert OpOk(g, l); }
    forall l, j: nat | Holds(g, l, j) && g.ops[l].status.Undecided? ensures Holds(g', l, j) { }
    forall l | l in g.ops ensures OpEvolves(g, g', l) { }
  }

  lemma CleanGood(g: Shared, k: Tag, a: nat, v: nat, g': Shared)
    requires Good(g) && k in g.ops && !g.ops[k].status.Undecided?
    requires a < |g.mem| && g.mem[a] == KcasTag(k) && g' == g.(mem := g.mem[a := Val(v)])
    ensures Good(g') && Rely(g, g')
    ensures forall u: nat :: u < |g.kd| && u < |g.rd| ==> Untouched(g, g', u)
  {
    CleanRely(g, k, a, v, g');
    forall r | r in g.rops ensures RopOk(g', r) {
      assert RopOk(g, r);
      PassedStable(g, g', g.rops[r].body.old1, g.rops[r].index);
    }
    forall b: nat | b < |g.mem| ensures WordOk(g', b) {
      assert WordOk(g, b);
      if b != a && g.mem[b].KcasTag? { PassedStable(g, g', g.mem[b].k, 1); }
    }
  }

  lemma StepDoRFinish(g: Shared, T: Thread, t: nat, g': Shared, T': Thread)
    requires Before(g, t, T) && DoRFinish(g, T, g', T')
    ensures Keeps(g, t, g', T')
  {
    if g.mem[T.slot.body.addr2] == RdcssTag(T.slot.tag) {
      FinishGood(g, T.slot, g');
    } else {
      RelyRefl(g);
    }
    FramesStable(g, g', t, T);
    if T.stack != [] {
      ThreadAfter(g, t, T, g', Top(T).pc, Free);
      assert T' == Goto(T, Top(T).pc).(slot := Free);
    }
  }

  /** What rdcssHelp does to memory when the tag is still there. */
  ghost predicate Finishes(g: Shared, sl: Slot, g': Shared) {
    && sl.RFinish? && sl.body.addr2 < |g.mem| && g.mem[sl.body.addr2] == RdcssTag(sl.tag)
    && g' == g.(mem := g.mem[sl.body.addr2 := if sl.undecided then KcasTag(sl.body.new2) else Val(sl.body.old2)])
  }

  lemma FinishGood(g: Shared, sl: Slot, g': Shared)
    requires Good(g) && sl.RFinish? && SlotOk(g, sl) && g.mem[sl.body.addr2] == RdcssTag(sl.tag)
    requires g' == g.(mem := g.mem[sl.body.addr2 := if sl.undecided then KcasTag(sl.body.new2) else Val(sl.body.old2)])
    ensures Good(g') && Rely(g, g')
    ensures forall u: nat :: u < |g.kd| && u < |g.rd| ==> Untouched(g, g', u)
  {
    var a := sl.body.addr2;
    FinishEvolves(g, sl, g');
    assert RopOk(g, sl.tag) && OpOk(g, sl.body.old1);
    forall l | l in g.ops ensures OpOk(g', l) { assert OpOk(g, l); }
    FinishRops(g, sl, g');
    forall b: nat | b < |g.mem| ensures WordOk(g', b) {
      assert WordOk(g, b);
      if b != a && g.mem[b].KcasTag? { PassedStable(g, g', g.mem[b].k, 1); }
    }
  }

  lemma FinishEvolves(g: Shared, sl: Slot, g': Shared)
    requires Good(g) && SlotOk(g, sl) && Finishes(g, sl, g')
    ensures Rely(g, g')
  {
    assert RopOk(g, sl.tag);
    forall l, j: nat | Holds(g, l, j) ensures Holds(g', l, j) { }
    forall l | l in g.ops ensures OpEvolves(g, g', l) { }
    forall r | r in g.rops ensures RopEvolves(g, g', r) { }
  }

  lemma FinishRops(g: Shared, sl: Slot, g': Shared)
    requires Good(g) && SlotOk(g, sl) && Finishes(g, sl, g') && Rely(g, g')
    ensures forall r :: r in g.rops ==> RopOk(g', r)
  {
    assert RopOk(g, sl.tag) && OpOk(g, sl.body.old1);
    forall l, j: nat | Holds(g, l, j) ensures Holds(g', l, j) { }
    forall r | r in g.rops ensures RopOk(g', r) {
      assert RopOk(g, r);
      PassedStable(g, g', g.rops[r].body.old1, g.rops[r].index);
      if r != sl.tag && g.rops[r].body.addr2 == sl.body.addr2 { assert g.mem[sl.body.addr2] != RdcssTag(r); }
    }
  }

  // ----- the whole machine -----

  lemma StepKeeps(g: Shared, T: Thread, t: nat, g': Shared, T': Thread)
    requires Before(g, t, T) && ThreadStep(g, T, t, g', T')
    ensures Keeps(g, t, g', T')
  {
    if Start(g, T, t, g', T') { StepStart(g, T, t, g', T'); }
    else if Prepare(g, T, t, g', T') { StepPrepare(g, T, t, g', T'); }
    else if Execute(g, T, t, g', T') { StepExecute(g, T, t, g', T'); }
    else if CallRead(g, T, g', T') || ReturnRead(g, T, g', T') { StepReading(g, T, t, g', T'); }
    else if Load(g, T, g', T') { StepLoad(g, T, t, g', T'); }
    else if f: Field :| CopyWord(g, T, f, g', T') { StepCopyWord(g, T, t, f, g', T'); }
    else if Validate(g, T, g', T') { StepValidate(g, T, t, g', T'); }
    else if DoReadState(g, T, g', T') { StepDoReadState(g, T, t, g', T'); }
    else if LoopDone(g, T, g', T') { StepLoopDone(g, T, t, g', T'); }
    else if NewRdcss(g, T, t, g', T') { StepNewRdcss(g, T, t, g', T'); }
    else if FillField(g, T, t, g', T') { StepFillField(g, T, t, g', T'); }
    else if PublishRdcss(g, T, t, g', T') { StepPublishRdcss(g, T, t, g', T'); }
    else if DoTryCas(g, T, t, g', T') { StepDoTryCas(g, T, t, g', T'); }
    else if OwnDone(g, T, g', T') { StepOwnDone(g, T, t, g', T'); }
    else if DecideRead(g, T, g', T') || DoDecideRetry(g, T, g', T') { StepDecideRead(g, T, t, g', T'); }
    else if DoDecideCas(g, T, g', T') { StepDoDecideCas(g, T, t, g', T'); }
    else if DoReadOutcome(g, T, g', T') { StepDoReadOutcome(g, T, t, g', T'); }
    else if DoClean(g, T, g', T') { StepDoClean(g, T, t, g', T'); }
    else if DoReturn(g, T, g', T') { StepDoReturn(g, T, t, g', T'); }
    else if CopyRWord(g, T, g', T') { StepCopyRWord(g, T, t, g', T'); }
    else if ValidateR(g, T, g', T') { StepValidateR(g, T, t, g', T'); }
    else if DoRRead(g, T, g', T') { StepDoRRead(g, T, t, g', T'); }
    else { StepDoRFinish(g, T, t, g', T'); }
  }

  lemma NextKeepsInv(s: State, s': State)
    requires Inv(s) && Next(s, s')
    ensures Inv(s') && Rely(s.g, s'.g)
  {
    var t: nat :| StepOf(s, s', t);
    StepKeeps(s.g, s.th[t], t, s'.g, s'.th[t]);
    forall u: nat | u < |s'.th| ensures ThreadOk(s'.g, u, s'.th[u]) {
      if u != t { OtherThreadStable(s.g, s'.g, u, s.th[u]); }
    }
  }

  lemma {:induction false} RunInv(run: seq<State>, n: nat)
    requires Run(run) && n < |run|
    ensures Inv(run[n])
  {
    if n == 0 {
      assert Init(run[0]);
    } else {
      var m := n - 1;
      RunInv(run, m);
      assert Next(run[m], run[m + 1]);
      NextKeepsInv(run[m], run[n]);
    }
  }
}
