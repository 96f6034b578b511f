/** A run in which the tag of a failed operation stays in memory for ever. */
module KcasWitness {
  import opened Wrappers
  import opened KcasModel
  import opened KcasTheorems
  import opened KcasTags

  /** State s after a step of thread t. */
  function Put(s: State, t: nat, g: Shared, T: Thread): State
    requires t < |s.th|
  {
    State(g, s.th[t := T])
  }

  lemma ExtendBy(run: seq<State>, t: nat, g: Shared, T: Thread) returns (more: seq<State>)
    requires Run(run)
    requires var s := run[|run| - 1];
             t < |s.th| == |s.g.kd| == |s.g.rd| && ThreadStep(s.g, s.th[t], t, g, T)
    ensures Run(more) && |more| == |run| + 1 && more[|run|] == Put(run[|run| - 1], t, g, T)
  {
    var s' := Put(run[|run| - 1], t, g, T);
    Extended(run, s', t);
    more := run + [s'];
  }

  /** The last state of a run: memory, descriptors, history and threads. */
  ghost predicate At(run: seq<State>, s: State) {
    Run(run) && run[|run| - 1] == s && |s.th| == |s.g.kd| == |s.g.rd|
  }

  lemma Go(run: seq<State>, s: State, t: nat, g: Shared, T: Thread) returns (more: seq<State>)
    requires At(run, s) && t < |s.th| && ThreadStep(s.g, s.th[t], t, g, T) && |g.kd| == |g.rd| == |s.th|
    ensures At(more, Put(s, t, g, T))
  {
    more := ExtendBy(run, t, g, T);
  }

  // ----- sequences of steps of one thread -----

  function Alone(f: Frame, slot: Slot, read: Read): Thread { Thread(false, [f], slot, read) }

  const RESTING := Thread(false, [], Free, NotReading)

  /** `start`, the entries, `execute` and the first look at the state. */
  lemma Begins(run: seq<State>, s: State, t: nat, es: seq<KEntry>) returns (more: seq<State>, s': State)
    requires At(run, s) && t < |s.th| && s.th[t] == RESTING && ProperEntries(es, |s.g.mem|)
    ensures At(more, s')
    ensures var k := Tag(t, s.g.kd[t].seqno + 2);
            s' == Put(s, t, s.g.(kd := s.g.kd[t := KDesc(k.seqno, Undecided, es)], ops := s.g.ops[k := Op(es, Undecided, false)]),
                      Alone(Frame(k, k.seqno, es, false, Entry(0)), Free, NotReading))
  {
    var k := Tag(t, s.g.kd[t].seqno + 2);
    var d := s.g.kd[t].(seqno := s.g.kd[t].seqno + 1, state := Undecided);
    var g1 := s.g.(kd := s.g.kd[t := d]);
    var T1 := RESTING.(building := true);
    assert Start(s.g, s.th[t], t, g1, T1);
    more := Go(run, s, t, g1, T1);
    var s1 := Put(s, t, g1, T1);
    var g2 := g1.(kd := g1.kd[t := d.(entries := es)]);
    assert Prepare(g1, T1, t, g2, T1);
    more := Go(more, s1, t, g2, T1);
    var s2 := Put(s1, t, g2, T1);
    var g3 := g2.(kd := g2.kd[t := KDesc(k.seqno, Undecided, es)], ops := g2.ops[k := Op(es, Undecided, false)]);
    var T3 := Alone(Frame(k, k.seqno, es, false, ReadState), Free, NotReading);
    assert Execute(g2, T1, t, g3, T3);
    more := Go(more, s2, t, g3, T3);
    var s3 := Put(s2, t, g3, T3);
    var T4 := Goto(T3, Entry(0));
    assert DoReadState(g3, T3, g3, T4);
    more := Go(more, s3, t, g3, T4);
    s' := Put(s3, t, g3, T4);
    GotoAlone(Frame(k, k.seqno, es, false, ReadState), Free, NotReading, Entry(0));
    assert s'.th == s.th[t := T4];
    assert g3.kd == s.g.kd[t := KDesc(k.seqno, Undecided, es)];
  }

  function WithRd(g: Shared, t: nat, d: RDesc): Shared
    requires t < |g.rd|
  {
    g.(rd := g.rd[t := d])
  }

  /** One field after the other of an RDCSS descriptor. */
  lemma Fills(run: seq<State>, s: State, t: nat) returns (more: seq<State>, s': State)
    requires At(run, s) && t < |s.th| && KcasModel.Running(s.th[t]) && Top(s.th[t]).pc.Fill?
    requires Top(s.th[t]).pc.i < |Top(s.th[t]).entries|
    ensures At(more, s') && s' == Put(s, t, WithRd(s.g, t, s.g.rd[t].(body := Target(Top(s.th[t]), Top(s.th[t]).pc.i))), s.th[t])
  {
    var T, w, d := s.th[t], Target(Top(s.th[t]), Top(s.th[t]).pc.i), s.g.rd[t];
    var b := d.body;
    more, s' := FillsOne(run, s, t, b.(addr1 := w.addr1));
    more, s' := FillsOne(more, s', t, s'.g.rd[t].body.(old1 := w.old1));
    more, s' := FillsOne(more, s', t, s'.g.rd[t].body.(addr2 := w.addr2));
    more, s' := FillsOne(more, s', t, s'.g.rd[t].body.(old2 := w.old2));
    more, s' := FillsOne(more, s', t, s'.g.rd[t].body.(new2 := w.new2));
  }

  lemma FillsOne(run: seq<State>, s: State, t: nat, b: RBody) returns (more: seq<State>, s': State)
    requires At(run, s) && t < |s.th| && KcasModel.Running(s.th[t]) && Top(s.th[t]).pc.Fill?
    requires Top(s.th[t]).pc.i < |Top(s.th[t]).entries|
    requires var want := Target(Top(s.th[t]), Top(s.th[t]).pc.i);
             var was := s.g.rd[t].body;
             b in {was.(addr1 := want.addr1), was.(old1 := want.old1), was.(addr2 := want.addr2),
                   was.(old2 := want.old2), was.(new2 := want.new2)}
    ensures At(more, s') && s' == Put(s, t, WithRd(s.g, t, s.g.rd[t].(body := b)), s.th[t])
  {
    var g := WithRd(s.g, t, s.g.rd[t].(body := b));
    assert FillField(s.g, s.th[t], t, g, s.th[t]);
    more := Go(run, s, t, g, s.th[t]);
    s' := Put(s, t, g, s.th[t]);
  }

  /** A new RDCSS for entry i, up to its first compare-and-swap. */
  lemma Publishes(run: seq<State>, s: State, t: nat, i: nat) returns (more: seq<State>, s': State)
    requires At(run, s) && t < |s.th| && KcasModel.Running(s.th[t]) && Top(s.th[t]).pc == Entry(i) && i < |Top(s.th[t]).entries|
    ensures At(more, s')
    ensures var x, b := Tag(t, s.g.rd[t].seqno + 2), Target(Top(s.th[t]), i);
            s' == Put(s, t, WithRd(s.g, t, RDesc(x.seqno, b)).(rops := s.g.rops[x := Rop(b, i, false)]), Goto(s.th[t], TryCas(i)))
  {
    var T, d := s.th[t], s.g.rd[t];
    var g1, T1 := WithRd(s.g, t, d.(seqno := d.seqno + 1)), Goto(T, KcasModel.Fill(i));
    assert NewRdcss(s.g, T, t, g1, T1);
    more := Go(run, s, t, g1, T1);
    var s1 := Put(s, t, g1, T1);
    var s2;
    more, s2 := Fills(more, s1, t);
    var x, b := Tag(t, d.seqno + 2), Target(Top(T), i);
    assert s2 == Put(s, t, WithRd(s.g, t, RDesc(d.seqno + 1, b)), T1);
    var g3, T3 := WithRd(s.g, t, RDesc(x.seqno, b)).(rops := s.g.rops[x := Rop(b, i, false)]), Goto(T, TryCas(i));
    assert PublishRdcss(s2.g, T1, t, g3, T3);
    more := Go(more, s2, t, g3, T3);
    s' := Put(s2, t, g3, T3);
  }

  /** The compare-and-swap puts the RDCSS tag into memory. */
  lemma Installs(run: seq<State>, s: State, t: nat, i: nat) returns (more: seq<State>, s': State)
    requires At(run, s) && t < |s.th| && KcasModel.Running(s.th[t]) && Top(s.th[t]).pc == TryCas(i)
    requires s.g.rd[t].body.addr2 < |s.g.mem| && s.g.mem[s.g.rd[t].body.addr2] == Val(s.g.rd[t].body.old2)
    ensures At(more, s')
    ensures var x, b := Tag(t, s.g.rd[t].seqno), s.g.rd[t].body;
            s' == Put(s, t, s.g.(mem := s.g.mem[b.addr2 := RdcssTag(x)], rops := NoteInstalled(s.g.rops, x)),
                      Goto(s.th[t], OwnHelp(i)).(slot := RRead(x, b)))
  {
    var T, x, b := s.th[t], Tag(t, s.g.rd[t].seqno), s.g.rd[t].body;
    var g1 := s.g.(mem := s.g.mem[b.addr2 := RdcssTag(x)], rops := NoteInstalled(s.g.rops, x));
    var T1 := Goto(T, OwnHelp(i)).(slot := RRead(x, b));
    assert DoTryCas(s.g, T, t, g1, T1);
    more := Go(run, s, t, g1, T1);
    s' := Put(s, t, g1, T1);
  }

  /** The owner finishes its RDCSS while the operation is undecided, and goes on to the next entry. */
  lemma Completes(run: seq<State>, s: State, t: nat, i: nat) returns (more: seq<State>, s': State)
    requires At(run, s) && t < |s.th| && s.th[t].stack != [] && Top(s.th[t]).pc == OwnHelp(i) && s.th[t].slot.RRead?
    requires var b := s.th[t].slot.body;
             && b.addr1 < |s.g.kd| && s.g.kd[b.addr1].seqno == b.old1.seqno && s.g.kd[b.addr1].state.Undecided?
             && b.addr2 < |s.g.mem| && s.g.mem[b.addr2] == RdcssTag(s.th[t].slot.tag)
    ensures At(more, s')
    ensures var b := s.th[t].slot.body;
            s' == Put(s, t, s.g.(mem := s.g.mem[b.addr2 := KcasTag(b.new2)]), Goto(s.th[t], Entry(i + 1)).(slot := Free))
  {
    var T, b, x := s.th[t], s.th[t].slot.body, s.th[t].slot.tag;
    var T1 := T.(slot := RFinish(x, b, true));
    assert DoRRead(s.g, T, s.g, T1);
    more := Go(run, s, t, s.g, T1);
    var s1 := Put(s, t, s.g, T1);
    var g2, T2 := s.g.(mem := s.g.mem[b.addr2 := KcasTag(b.new2)]), T.(slot := Free);
    assert DoRFinish(s.g, T1, g2, T2);
    more := Go(more, s1, t, g2, T2);
    var s2 := Put(s1, t, g2, T2);
    var T3 := Goto(T2, Entry(i + 1));
    assert OwnDone(g2, T2, g2, T3);
    more := Go(more, s2, t, g2, T3);
    s' := Put(s2, t, g2, T3);
  }

  /** One step inside `help` that leaves shared memory alone. */
  lemma GoesTo(run: seq<State>, s: State, t: nat, pc: Pc) returns (more: seq<State>, s': State)
    requires At(run, s) && t < |s.th| && s.th[t].stack != [] && ThreadStep(s.g, s.th[t], t, s.g, Goto(s.th[t], pc))
    ensures At(more, s') && s' == Put(s, t, s.g, Goto(s.th[t], pc))
  {
    more := Go(run, s, t, s.g, Goto(s.th[t], pc));
    s' := Put(s, t, s.g, Goto(s.th[t], pc));
  }

  // ----- the run -----

  const K0 := Tag(0, 3)
  const K1 := Tag(1, 3)
  const ES0 := [KEntry(0, 1, 2), KEntry(1, 5, 6)]
  const ES1 := [KEntry(1, 7, 5)]
  const NO_RDCSS := RDesc(1, RBody(0, Tag(0, 0), 0, 0, Tag(0, 0)))
  const NO_KCAS := KDesc(1, Undecided, [])

  const START := State(Shared([Val(1), Val(7)], [NO_KCAS, NO_KCAS, NO_KCAS], [NO_RDCSS, NO_RDCSS, NO_RDCSS], map[], map[]),
                       [RESTING, RESTING, RESTING])

  /** Two words and three threads; the third never owns an operation. */
  function Three(m0: Word, m1: Word, d0: KDesc, d1: KDesc, r0: RDesc, r1: RDesc, ops: map<Tag, Op>, rops: map<Tag, Rop>,
                 T0: Thread, T1: Thread, T2: Thread): State {
    State(Shared([m0, m1], [d0, d1, NO_KCAS], [r0, r1, NO_RDCSS], ops, rops), [T0, T1, T2])
  }

  lemma IsThree(s: State, m0: Word, m1: Word, d0: KDesc, d1: KDesc, r0: RDesc, r1: RDesc, ops: map<Tag, Op>,
                rops: map<Tag, Rop>, T0: Thread, T1: Thread, T2: Thread)
    requires |s.g.mem| == 2 && s.g.mem[0] == m0 && s.g.mem[1] == m1
    requires |s.g.kd| == 3 && s.g.kd[0] == d0 && s.g.kd[1] == d1 && s.g.kd[2] == NO_KCAS
    requires |s.g.rd| == 3 && s.g.rd[0] == r0 && s.g.rd[1] == r1 && s.g.rd[2] == NO_RDCSS
    requires s.g.ops == ops && s.g.rops == rops && |s.th| == 3 && s.th[0] == T0 && s.th[1] == T1 && s.th[2] == T2
    ensures s == Three(m0, m1, d0, d1, r0, r1, ops, rops, T0, T1, T2)
  {
  }

  lemma GotoAlone(f: Frame, slot: Slot, read: Read, pc: Pc)
    ensures Goto(Alone(f, slot, read), pc) == Alone(f.(pc := pc), slot, read)
  {
  }

  function F0(pc: Pc): Thread { Alone(Frame(K0, 3, ES0, false, pc), Free, NotReading) }

  const X0 := Tag(0, 3)
  const X1 := Tag(0, 5)
  const B0 := RBody(0, K0, 0, 1, K0)
  const B1 := RBody(0, K0, 1, 5, K0)
  const D0 := KDesc(3, Undecided, ES0)

  function Ops0(contradicted: bool): map<Tag, Op> { map[K0 := Op(ES0, Undecided, contradicted)] }
  function Rops0(): map<Tag, Rop> { map[X0 := Rop(B0, 0, true), X1 := Rop(B1, 1, false)] }

  function Refused(): State {
    Three(KcasTag(K0), Val(7), D0, NO_KCAS, RDesc(5, B1), NO_RDCSS, Ops0(true), Rops0(), F0(DecideCas(Failed)), RESTING, RESTING)
  }

  /** Thread 0 locks word 0 for [(0, 1 -> 2), (1, 5 -> 6)] ... */
  lemma LocksFirst() returns (run: seq<State>)
    ensures At(run, Three(KcasTag(K0), Val(7), D0, NO_KCAS, RDesc(3, B0), NO_RDCSS, Ops0(false), map[X0 := Rop(B0, 0, true)],
                          F0(Entry(1)), RESTING, RESTING))
  {
    run := [START];
    var s := START;
    run, s := Begins(run, s, 0, ES0);
    IsThree(s, Val(1), Val(7), D0, NO_KCAS, NO_RDCSS, NO_RDCSS, Ops0(false), map[], F0(Entry(0)), RESTING, RESTING);
    run, s := Publishes(run, s, 0, 0);
    GotoAlone(Frame(K0, 3, ES0, false, Entry(0)), Free, NotReading, TryCas(0));
    IsThree(s, Val(1), Val(7), D0, NO_KCAS, RDesc(3, B0), NO_RDCSS, Ops0(false), map[X0 := Rop(B0, 0, false)],
            F0(TryCas(0)), RESTING, RESTING);
    run := LocksIt(run, s);
  }

  lemma LocksIt(run: seq<State>, s: State) returns (more: seq<State>)
    requires At(run, s)
    requires s == Three(Val(1), Val(7), D0, NO_KCAS, RDesc(3, B0), NO_RDCSS, Ops0(false), map[X0 := Rop(B0, 0, false)],
                        F0(TryCas(0)), RESTING, RESTING)
    ensures At(more, Three(KcasTag(K0), Val(7), D0, NO_KCAS, RDesc(3, B0), NO_RDCSS, Ops0(false), map[X0 := Rop(B0, 0, true)],
                           F0(Entry(1)), RESTING, RESTING))
  {
    var s' := s;
    more, s' := Installs(run, s, 0, 0);
    GotoAlone(Frame(K0, 3, ES0, false, TryCas(0)), Free, NotReading, OwnHelp(0));
    more, s' := Completes(more, s', 0, 0);
    GotoAlone(Frame(K0, 3, ES0, false, OwnHelp(0)), RRead(X0, B0), NotReading, Entry(1));
    IsThree(s', KcasTag(K0), Val(7), D0, NO_KCAS, RDesc(3, B0), NO_RDCSS, Ops0(false), map[X0 := Rop(B0, 0, true)],
            F0(Entry(1)), RESTING, RESTING);
  }

  /** ... finds 7 in word 1 and is about to decide for failure. */
  lemma FindsMismatch() returns (run: seq<State>)
    ensures At(run, Refused())
  {
    run := LocksFirst();
    var s := run[|run| - 1];
    run, s := Publishes(run, s, 0, 1);
    GotoAlone(Frame(K0, 3, ES0, false, Entry(1)), Free, NotReading, TryCas(1));
    IsThree(s, KcasTag(K0), Val(7), D0, NO_KCAS, RDesc(5, B1), NO_RDCSS, Ops0(false), Rops0(), F0(TryCas(1)), RESTING, RESTING);
    run := Refuses(run, s);
  }

  lemma Refuses(run: seq<State>, s: State) returns (more: seq<State>)
    requires At(run, s)
    requires s == Three(KcasTag(K0), Val(7), D0, NO_KCAS, RDesc(5, B1), NO_RDCSS, Ops0(false), Rops0(), F0(TryCas(1)), RESTING, RESTING)
    ensures At(more, Refused())
  {
    var T := s.th[0];
    var g1, T1 := s.g.(ops := NoteContradiction(s.g.ops, K0)), Goto(T, Decide(Failed));
    assert DoTryCas(s.g, T, 0, g1, T1);
    more := Go(run, s, 0, g1, T1);
    var s1 := Put(s, 0, g1, T1);
    GotoAlone(Frame(K0, 3, ES0, false, TryCas(1)), Free, NotReading, Decide(Failed));
    assert DecideRead(g1, T1, g1, Goto(T1, DecideCas(Failed)));
    var s2;
    more, s2 := GoesTo(more, s1, 0, DecideCas(Failed));
    GotoAlone(Frame(K0, 3, ES0, false, Decide(Failed)), Free, NotReading, DecideCas(Failed));
    IsThree(s2, KcasTag(K0), Val(7), D0, NO_KCAS, RDesc(5, B1), NO_RDCSS, Ops0(true), Rops0(), F0(DecideCas(Failed)), RESTING, RESTING);
  }

  /** One step that leaves shared memory alone. */
  lemma Turns(run: seq<State>, s: State, t: nat, T: Thread) returns (more: seq<State>, s': State)
    requires At(run, s) && t < |s.th| && ThreadStep(s.g, s.th[t], t, s.g, T)
    ensures At(more, s') && s' == Put(s, t, s.g, T)
  {
    more := Go(run, s, t, s.g, T);
    s' := Put(s, t, s.g, T);
  }

  // ----- thread 1 changes word 1 from 7 to 5 -----

  function F1(pc: Pc): Thread { Alone(Frame(K1, 3, ES1, false, pc), Free, NotReading) }

  const X2 := Tag(1, 3)
  const B2 := RBody(1, K1, 1, 7, K1)

  function Ops1(status: Status): map<Tag, Op> { map[K0 := Op(ES0, Undecided, true), K1 := Op(ES1, status, false)] }
  function Rops1(installed: bool): map<Tag, Rop> { Rops0()[X2 := Rop(B2, 0, installed)] }

  function Other(m1: Word, status: Status, r1: RDesc, rops: map<Tag, Rop>, T1: Thread): State {
    Three(KcasTag(K0), m1, D0, KDesc(3, status, ES1), RDesc(5, B1), r1, Ops1(status), rops, F0(DecideCas(Failed)), T1, RESTING)
  }

  lemma OtherBegins() returns (run: seq<State>)
    ensures At(run, Other(Val(7), Undecided, RDesc(3, B2), Rops1(false), F1(TryCas(0))))
  {
    run := FindsMismatch();
    var s := run[|run| - 1];
    run, s := Begins(run, s, 1, ES1);
    IsThree(s, KcasTag(K0), Val(7), D0, KDesc(3, Undecided, ES1), RDesc(5, B1), NO_RDCSS, Ops1(Undecided), Rops0(),
            F0(DecideCas(Failed)), F1(Entry(0)), RESTING);
    run, s := Publishes(run, s, 1, 0);
    GotoAlone(Frame(K1, 3, ES1, false, Entry(0)), Free, NotReading, TryCas(0));
    IsThree(s, KcasTag(K0), Val(7), D0, KDesc(3, Undecided, ES1), RDesc(5, B1), RDesc(3, B2), Ops1(Undecided), Rops1(false),
            F0(DecideCas(Failed)), F1(TryCas(0)), RESTING);
  }

  lemma OtherLocks() returns (run: seq<State>)
    ensures At(run, Other(KcasTag(K1), Undecided, RDesc(3, B2), Rops1(true), F1(Entry(1))))
  {
    run := OtherBegins();
    var s := run[|run| - 1];
    run, s := Installs(run, s, 1, 0);
    GotoAlone(Frame(K1, 3, ES1, false, TryCas(0)), Free, NotReading, OwnHelp(0));
    run, s := Completes(run, s, 1, 0);
    GotoAlone(Frame(K1, 3, ES1, false, OwnHelp(0)), RRead(X2, B2), NotReading, Entry(1));
    IsThree(s, KcasTag(K0), KcasTag(K1), D0, KDesc(3, Undecided, ES1), RDesc(5, B1), RDesc(3, B2), Ops1(Undecided), Rops1(true),
            F0(DecideCas(Failed)), F1(Entry(1)), RESTING);
  }

  lemma OtherSucceeds() returns (run: seq<State>)
    ensures At(run, Other(KcasTag(K1), Succeeded, RDesc(3, B2), Rops1(true), F1(ReadOutcome)))
  {
    run := OtherLocks();
    var s := run[|run| - 1];
    GotoAlone(Frame(K1, 3, ES1, false, Entry(1)), Free, NotReading, Decide(Succeeded));
    assert LoopDone(s.g, s.th[1], s.g, F1(Decide(Succeeded)));
    run, s := Turns(run, s, 1, F1(Decide(Succeeded)));
    GotoAlone(Frame(K1, 3, ES1, false, Decide(Succeeded)), Free, NotReading, DecideCas(Succeeded));
    assert DecideRead(s.g, s.th[1], s.g, F1(DecideCas(Succeeded)));
    run, s := Turns(run, s, 1, F1(DecideCas(Succeeded)));
    GotoAlone(Frame(K1, 3, ES1, false, DecideCas(Succeeded)), Free, NotReading, ReadOutcome);
    var g := s.g.(kd := s.g.kd[1 := KDesc(3, Succeeded, ES1)], ops := NoteStatus(s.g.ops, K1, Succeeded));
    assert DoDecideCas(s.g, s.th[1], g, F1(ReadOutcome));
    run := Go(run, s, 1, g, F1(ReadOutcome));
    IsThree(Put(s, 1, g, F1(ReadOutcome)), KcasTag(K0), KcasTag(K1), D0, KDesc(3, Succeeded, ES1), RDesc(5, B1), RDesc(3, B2),
            Ops1(Succeeded), Rops1(true), F0(DecideCas(Failed)), F1(ReadOutcome), RESTING);
  }

  lemma OtherReturns() returns (run: seq<State>)
    ensures At(run, Other(Val(5), Succeeded, RDesc(3, B2), Rops1(true), RESTING))
  {
    run := OtherSucceeds();
    var s := run[|run| - 1];
    GotoAlone(Frame(K1, 3, ES1, false, ReadOutcome), Free, NotReading, Clean(0, true));
    assert DoReadOutcome(s.g, s.th[1], s.g, F1(Clean(0, true)));
    run, s := Turns(run, s, 1, F1(Clean(0, true)));
    GotoAlone(Frame(K1, 3, ES1, false, Clean(0, true)), Free, NotReading, Clean(1, true));
    var g := s.g.(mem := s.g.mem[1 := Val(5)]);
    assert DoClean(s.g, s.th[1], g, F1(Clean(1, true)));
    run := Go(run, s, 1, g, F1(Clean(1, true)));
    s := Put(s, 1, g, F1(Clean(1, true)));
    GotoAlone(Frame(K1, 3, ES1, false, Clean(1, true)), Free, NotReading, Return(true));
    assert DoClean(g, s.th[1], g, F1(Return(true)));
    run, s := Turns(run, s, 1, F1(Return(true)));
    assert Pop(s.th[1]) == RESTING;
    assert DoReturn(g, s.th[1], g, RESTING);
    run, s := Turns(run, s, 1, RESTING);
    IsThree(s, KcasTag(K0), Val(5), D0, KDesc(3, Succeeded, ES1), RDesc(5, B1), RDesc(3, B2), Ops1(Succeeded), Rops1(true),
            F0(DecideCas(Failed)), RESTING, RESTING);
  }

  // ----- then it meets the tag of thread 0 in word 0, and helps -----

  function Copying(snap: map<Field, nat>): Thread { Alone(Frame(K0, 0, [], true, Copy(snap)), Free, ReadOf(0)) }
  function Helper(pc: Pc, slot: Slot): Thread { Alone(Frame(K0, 3, ES0, true, pc), slot, ReadOf(0)) }

  /** One more word of the descriptor of thread 0. */
  lemma Copies(run: seq<State>, s: State, snap: map<Field, nat>, f: Field) returns (more: seq<State>, s': State)
    requires At(run, s) && |s.th| == 3 && s.th[1] == Copying(snap) && s.g.kd[0] == D0
    ensures At(more, s') && s' == Put(s, 1, s.g, Copying(snap[f := ReadField(D0, f)])) && s'.g == s.g
  {
    GotoAlone(Frame(K0, 0, [], true, Copy(snap)), Free, ReadOf(0), Copy(snap[f := ReadField(D0, f)]));
    assert CopyWord(s.g, s.th[1], f, s.g, Copying(snap[f := ReadField(D0, f)]));
    more, s' := Turns(run, s, 1, Copying(snap[f := ReadField(D0, f)]));
  }

  const SNAP := map[FSeq := 3, FCount := 2, FAddr(0) := 0, FOld(0) := 1, FNew(0) := 2, FAddr(1) := 1, FOld(1) := 5, FNew(1) := 6]

  function Later(m0: Word, m1: Word, d0: KDesc, ops: map<Tag, Op>, r1: RDesc, rops: map<Tag, Rop>, T0: Thread, T1: Thread,
                 T2: Thread): State {
    Three(m0, m1, d0, KDesc(3, Succeeded, ES1), RDesc(5, B1), r1, ops, rops, T0, T1, T2)
  }

  function Meeting(r1: RDesc, rops: map<Tag, Rop>, T1: Thread): State {
    Later(KcasTag(K0), Val(5), D0, Ops1(Succeeded), r1, rops, F0(DecideCas(Failed)), T1, RESTING)
  }

  lemma Meets() returns (run: seq<State>)
    ensures At(run, Meeting(RDesc(3, B2), Rops1(true), Copying(map[])))
  {
    run := OtherReturns();
    var s := run[|run| - 1];
    var T := RESTING.(read := ReadOf(0));
    assert CallRead(s.g, s.th[1], s.g, T);
    run, s := Turns(run, s, 1, T);
    assert Push(T, K0) == Copying(map[]);
    assert Load(s.g, s.th[1], s.g, Copying(map[]));
    run, s := Turns(run, s, 1, Copying(map[]));
    IsThree(s, KcasTag(K0), Val(5), D0, KDesc(3, Succeeded, ES1), RDesc(5, B1), RDesc(3, B2), Ops1(Succeeded), Rops1(true),
            F0(DecideCas(Failed)), Copying(map[]), RESTING);
  }

  lemma CopiesAll() returns (run: seq<State>)
    ensures At(run, Meeting(RDesc(3, B2), Rops1(true), Copying(SNAP)))
  {
    run := Meets();
    var s := run[|run| - 1];
    var n := map[];
    run, s := Copies(run, s, n, FSeq);
    run, s := Copies(run, s, map[FSeq := 3], FCount);
    run, s := Copies(run, s, map[FSeq := 3, FCount := 2], FAddr(0));
    run, s := Copies(run, s, map[FSeq := 3, FCount := 2, FAddr(0) := 0], FOld(0));
    run, s := Copies(run, s, map[FSeq := 3, FCount := 2, FAddr(0) := 0, FOld(0) := 1], FNew(0));
    var half := map[FSeq := 3, FCount := 2, FAddr(0) := 0, FOld(0) := 1, FNew(0) := 2];
    run, s := Copies(run, s, half, FAddr(1));
    run, s := Copies(run, s, half[FAddr(1) := 1], FOld(1));
    run, s := Copies(run, s, half[FAddr(1) := 1][FOld(1) := 5], FNew(1));
    assert half[FAddr(1) := 1][FOld(1) := 5][FNew(1) := 6] == SNAP;
    IsThree(s, KcasTag(K0), Val(5), D0, KDesc(3, Succeeded, ES1), RDesc(5, B1), RDesc(3, B2), Ops1(Succeeded), Rops1(true),
            F0(DecideCas(Failed)), Copying(SNAP), RESTING);
  }

  lemma SnapIsComplete()
    ensures Complete(SNAP) && Decode(SNAP) == ES0 && SNAP[FSeq] == 3
  {
  }

  lemma Helps() returns (run: seq<State>)
    ensures At(run, Meeting(RDesc(3, B2), Rops1(true), Helper(Entry(1), Free)))
  {
    run := CopiesAll();
    var s := run[|run| - 1];
    SnapIsComplete();
    assert s.th[1].stack[0 := Frame(K0, 3, ES0, true, ReadState)] == Helper(ReadState, Free).stack;
    assert Validate(s.g, s.th[1], s.g, Helper(ReadState, Free));
    run, s := Turns(run, s, 1, Helper(ReadState, Free));
    GotoAlone(Frame(K0, 3, ES0, true, ReadState), Free, ReadOf(0), Entry(1));
    assert DoReadState(s.g, s.th[1], s.g, Helper(Entry(1), Free));
    run, s := Turns(run, s, 1, Helper(Entry(1), Free));
    IsThree(s, KcasTag(K0), Val(5), D0, KDesc(3, Succeeded, ES1), RDesc(5, B1), RDesc(3, B2), Ops1(Succeeded), Rops1(true),
            F0(DecideCas(Failed)), Helper(Entry(1), Free), RESTING);
  }

  const X3 := Tag(1, 5)
  function Rops2(installed: bool): map<Tag, Rop> { Rops1(true)[X3 := Rop(B1, 1, installed)] }

  function Installed(d0: KDesc, ops: map<Tag, Op>, m0: Word, m1: Word, T0: Thread, T1: Thread, T2: Thread): State {
    Later(m0, m1, d0, ops, RDesc(5, B1), Rops2(true), T0, T1, T2)
  }

  /** It puts the tag of its RDCSS into word 1, which holds 5 now. */
  lemma HelperInstalls() returns (run: seq<State>)
    ensures At(run, Installed(D0, Ops1(Succeeded), KcasTag(K0), RdcssTag(X3), F0(DecideCas(Failed)),
                              Helper(OwnHelp(1), RRead(X3, B1)), RESTING))
  {
    run := Helps();
    var s := run[|run| - 1];
    run, s := Publishes(run, s, 1, 1);
    GotoAlone(Frame(K0, 3, ES0, true, Entry(1)), Free, ReadOf(0), TryCas(1));
    IsThree(s, KcasTag(K0), Val(5), D0, KDesc(3, Succeeded, ES1), RDesc(5, B1), RDesc(5, B1), Ops1(Succeeded), Rops2(false),
            F0(DecideCas(Failed)), Helper(TryCas(1), Free), RESTING);
    run, s := Installs(run, s, 1, 1);
    GotoAlone(Frame(K0, 3, ES0, true, TryCas(1)), Free, ReadOf(0), OwnHelp(1));
    IsThree(s, KcasTag(K0), RdcssTag(X3), D0, KDesc(3, Succeeded, ES1), RDesc(5, B1), RDesc(5, B1), Ops1(Succeeded), Rops2(true),
            F0(DecideCas(Failed)), Helper(OwnHelp(1), RRead(X3, B1)), RESTING);
  }

  // ----- thread 2 meets the RDCSS tag and finds the operation undecided -----

  function Reader(slot: Slot): Thread { Thread(false, [], slot, ReadOf(1)) }

  function Reading(slot: Slot): State {
    Installed(D0, Ops1(Succeeded), KcasTag(K0), RdcssTag(X3), F0(DecideCas(Failed)), Helper(OwnHelp(1), RRead(X3, B1)), Reader(slot))
  }

  lemma ReaderMeets() returns (run: seq<State>)
    ensures At(run, Reading(RCopy(X3, EMPTY_RSNAP)))
  {
    run := HelperInstalls();
    var s := run[|run| - 1];
    assert CallRead(s.g, s.th[2], s.g, Reader(Free));
    run, s := Turns(run, s, 2, Reader(Free));
    assert Load(s.g, s.th[2], s.g, Reader(RCopy(X3, EMPTY_RSNAP)));
    run, s := Turns(run, s, 2, Reader(RCopy(X3, EMPTY_RSNAP)));
    IsThree(s, KcasTag(K0), RdcssTag(X3), D0, KDesc(3, Succeeded, ES1), RDesc(5, B1), RDesc(5, B1), Ops1(Succeeded), Rops2(true),
            F0(DecideCas(Failed)), Helper(OwnHelp(1), RRead(X3, B1)), Reader(RCopy(X3, EMPTY_RSNAP)));
  }

  /** One step of thread 2 that only changes its slot. */
  lemma ReaderTurns(run: seq<State>, slot: Slot, slot': Slot) returns (more: seq<State>)
    requires At(run, Reading(slot)) && ThreadStep(Reading(slot).g, Reader(slot), 2, Reading(slot).g, Reader(slot'))
    ensures At(more, Reading(slot'))
  {
    var s;
    more, s := Turns(run, Reading(slot), 2, Reader(slot'));
    IsThree(s, KcasTag(K0), RdcssTag(X3), D0, KDesc(3, Succeeded, ES1), RDesc(5, B1), RDesc(5, B1), Ops1(Succeeded), Rops2(true),
            F0(DecideCas(Failed)), Helper(OwnHelp(1), RRead(X3, B1)), Reader(slot'));
  }

  lemma ReaderCopies(run: seq<State>, sn: RSnap, sn': RSnap) returns (more: seq<State>)
    requires At(run, Reading(RCopy(X3, sn)))
    requires sn' in {sn.(addr1 := Some(0)), sn.(old1 := Some(K0)), sn.(addr2 := Some(1)), sn.(old2 := Some(5)), sn.(new2 := Some(K0))}
    ensures At(more, Reading(RCopy(X3, sn')))
  {
    assert CopyRWord(Reading(RCopy(X3, sn)).g, Reader(RCopy(X3, sn)), Reading(RCopy(X3, sn)).g, Reader(RCopy(X3, sn')));
    more := ReaderTurns(run, RCopy(X3, sn), RCopy(X3, sn'));
  }

  lemma ReaderIsAboutToInstall() returns (run: seq<State>)
    ensures At(run, Reading(RFinish(X3, B1, true)))
  {
    run := ReaderMeets();
    run := ReaderCopies(run, EMPTY_RSNAP, RSnap(Some(0), None, None, None, None));
    run := ReaderCopies(run, RSnap(Some(0), None, None, None, None), RSnap(Some(0), Some(K0), None, None, None));
    run := ReaderCopies(run, RSnap(Some(0), Some(K0), None, None, None), RSnap(Some(0), Some(K0), Some(1), None, None));
    run := ReaderCopies(run, RSnap(Some(0), Some(K0), Some(1), None, None), RSnap(Some(0), Some(K0), Some(1), Some(5), None));
    var sn := RSnap(Some(0), Some(K0), Some(1), Some(5), Some(K0));
    run := ReaderCopies(run, RSnap(Some(0), Some(K0), Some(1), Some(5), None), sn);
    assert ValidateR(Reading(RCopy(X3, sn)).g, Reader(RCopy(X3, sn)), Reading(RCopy(X3, sn)).g, Reader(RRead(X3, B1)));
    run := ReaderTurns(run, RCopy(X3, sn), RRead(X3, B1));
    assert DoRRead(Reading(RRead(X3, B1)).g, Reader(RRead(X3, B1)), Reading(RRead(X3, B1)).g, Reader(RFinish(X3, B1, true)));
    run := ReaderTurns(run, RRead(X3, B1), RFinish(X3, B1, true));
  }

  // ----- thread 0 decides for failure, cleans up, returns and moves on -----

  function Op0(): map<Tag, Op> { map[K0 := Op(ES0, Failed, true), K1 := Op(ES1, Succeeded, false)] }
  function Waiting1(): Thread { Helper(OwnHelp(1), RRead(X3, B1)) }
  function Waiting2(): Thread { Reader(RFinish(X3, B1, true)) }

  function Failing(m0: Word, pc: Pc): State {
    Installed(KDesc(3, Failed, ES0), Op0(), m0, RdcssTag(X3), F0(pc), Waiting1(), Waiting2())
  }

  lemma Fails() returns (run: seq<State>)
    ensures At(run, Failing(KcasTag(K0), ReadOutcome))
  {
    run := ReaderIsAboutToInstall();
    var s := Reading(RFinish(X3, B1, true));
    GotoAlone(Frame(K0, 3, ES0, false, DecideCas(Failed)), Free, NotReading, ReadOutcome);
    var g := s.g.(kd := s.g.kd[0 := KDesc(3, Failed, ES0)], ops := NoteStatus(s.g.ops, K0, Failed));
    assert DoDecideCas(s.g, s.th[0], g, F0(ReadOutcome));
    run := Go(run, s, 0, g, F0(ReadOutcome));
    IsThree(Put(s, 0, g, F0(ReadOutcome)), KcasTag(K0), RdcssTag(X3), KDesc(3, Failed, ES0), KDesc(3, Succeeded, ES1), RDesc(5, B1),
            RDesc(5, B1), Op0(), Rops2(true), F0(ReadOutcome), Waiting1(), Waiting2());
  }

  /** One step of thread 0 that leaves shared memory alone. */
  lemma FailingTurns(run: seq<State>, m0: Word, pc: Pc, pc': Pc) returns (more: seq<State>)
    requires At(run, Failing(m0, pc)) && ThreadStep(Failing(m0, pc).g, F0(pc), 0, Failing(m0, pc).g, F0(pc'))
    ensures At(more, Failing(m0, pc'))
  {
    var s;
    more, s := Turns(run, Failing(m0, pc), 0, F0(pc'));
    IsThree(s, m0, RdcssTag(X3), KDesc(3, Failed, ES0), KDesc(3, Succeeded, ES1), RDesc(5, B1), RDesc(5, B1), Op0(), Rops2(true),
            F0(pc'), Waiting1(), Waiting2());
  }

  lemma Cleans() returns (run: seq<State>)
    ensures At(run, Failing(Val(1), Clean(1, false)))
  {
    run := Fails();
    GotoAlone(Frame(K0, 3, ES0, false, ReadOutcome), Free, NotReading, Clean(0, false));
    var s := Failing(KcasTag(K0), ReadOutcome);
    assert DoReadOutcome(s.g, F0(ReadOutcome), s.g, F0(Clean(0, false)));
    run := FailingTurns(run, KcasTag(K0), ReadOutcome, Clean(0, false));
    s := Failing(KcasTag(K0), Clean(0, false));
    GotoAlone(Frame(K0, 3, ES0, false, Clean(0, false)), Free, NotReading, Clean(1, false));
    var g := s.g.(mem := s.g.mem[0 := Val(1)]);
    assert DoClean(s.g, F0(Clean(0, false)), g, F0(Clean(1, false)));
    run := Go(run, s, 0, g, F0(Clean(1, false)));
    IsThree(Put(s, 0, g, F0(Clean(1, false))), Val(1), RdcssTag(X3), KDesc(3, Failed, ES0), KDesc(3, Succeeded, ES1), RDesc(5, B1),
            RDesc(5, B1), Op0(), Rops2(true), F0(Clean(1, false)), Waiting1(), Waiting2());
  }

  /** The call is about to return false. */
  lemma ReturnsFalse() returns (run: seq<State>)
    ensures At(run, Failing(Val(1), Return(false))) && Returns(run[|run| - 1], 0, K0, false)
  {
    run := Cleans();
    GotoAlone(Frame(K0, 3, ES0, false, Clean(1, false)), Free, NotReading, Clean(2, false));
    var s := Failing(Val(1), Clean(1, false));
    assert DoClean(s.g, F0(Clean(1, false)), s.g, F0(Clean(2, false)));
    run := FailingTurns(run, Val(1), Clean(1, false), Clean(2, false));
    GotoAlone(Frame(K0, 3, ES0, false, Clean(2, false)), Free, NotReading, Return(false));
    s := Failing(Val(1), Clean(2, false));
    assert DoClean(s.g, F0(Clean(2, false)), s.g, F0(Return(false)));
    run := FailingTurns(run, Val(1), Clean(2, false), Return(false));
  }

  const NEXT := KDesc(4, Undecided, ES0)
  const BUILDING := Thread(true, [], Free, NotReading)

  function Moved(m1: Word, T1: Thread, T2: Thread): State {
    Installed(NEXT, Op0(), Val(1), m1, BUILDING, T1, T2)
  }

  lemma MovesOn() returns (run: seq<State>)
    ensures At(run, Moved(RdcssTag(X3), Waiting1(), Waiting2()))
  {
    run := ReturnsFalse();
    var s := Failing(Val(1), Return(false));
    assert Pop(F0(Return(false))) == RESTING;
    assert DoReturn(s.g, s.th[0], s.g, RESTING);
    run, s := Turns(run, s, 0, RESTING);
    var g := s.g.(kd := s.g.kd[0 := NEXT]);
    assert Start(s.g, s.th[0], 0, g, BUILDING);
    run := Go(run, s, 0, g, BUILDING);
    IsThree(Put(s, 0, g, BUILDING), Val(1), RdcssTag(X3), NEXT, KDesc(3, Succeeded, ES1), RDesc(5, B1), RDesc(5, B1), Op0(),
            Rops2(true), BUILDING, Waiting1(), Waiting2());
  }

  // ----- thread 2 puts the tag back, and thread 1 cannot help any more -----

  lemma PutsBack() returns (run: seq<State>)
    ensures At(run, Moved(KcasTag(K0), Waiting1(), Reader(Free)))
  {
    run := MovesOn();
    var s := Moved(RdcssTag(X3), Waiting1(), Waiting2());
    var g := s.g.(mem := s.g.mem[1 := KcasTag(K0)]);
    assert DoRFinish(s.g, s.th[2], g, Reader(Free));
    run := Go(run, s, 2, g, Reader(Free));
    IsThree(Put(s, 2, g, Reader(Free)), Val(1), KcasTag(K0), NEXT, KDesc(3, Succeeded, ES1), RDesc(5, B1), RDesc(5, B1), Op0(),
            Rops2(true), BUILDING, Waiting1(), Reader(Free));
  }

  lemma HelperTurns(run: seq<State>, T: Thread, T': Thread) returns (more: seq<State>)
    requires At(run, Moved(KcasTag(K0), T, Reader(Free)))
    requires var g := Moved(KcasTag(K0), T, Reader(Free)).g; ThreadStep(g, T, 1, g, T')
    ensures At(more, Moved(KcasTag(K0), T', Reader(Free)))
  {
    var s;
    more, s := Turns(run, Moved(KcasTag(K0), T, Reader(Free)), 1, T');
    IsThree(s, Val(1), KcasTag(K0), NEXT, KDesc(3, Succeeded, ES1), RDesc(5, B1), RDesc(5, B1), Op0(), Rops2(true),
            BUILDING, T', Reader(Free));
  }

  function After(T: Thread): Shared { Moved(KcasTag(K0), T, Reader(Free)).g }

  lemma FinishesItsRdcss() returns (run: seq<State>)
    ensures At(run, Moved(KcasTag(K0), Helper(Entry(2), Free), Reader(Free)))
  {
    run := PutsBack();
    var T := Helper(OwnHelp(1), RFinish(X3, B1, false));
    assert DoRRead(After(Waiting1()), Waiting1(), After(Waiting1()), T);
    run := HelperTurns(run, Waiting1(), T);
    assert DoRFinish(After(T), T, After(T), Helper(OwnHelp(1), Free));
    run := HelperTurns(run, T, Helper(OwnHelp(1), Free));
    GotoAlone(Frame(K0, 3, ES0, true, OwnHelp(1)), Free, ReadOf(0), Entry(2));
    T := Helper(OwnHelp(1), Free);
    assert OwnDone(After(T), T, After(T), Helper(Entry(2), Free));
    run := HelperTurns(run, T, Helper(Entry(2), Free));
  }

  lemma GivesUp() returns (run: seq<State>)
    ensures At(run, Moved(KcasTag(K0), Helper(Return(false), Free), Reader(Free)))
  {
    run := FinishesItsRdcss();
    var T := Helper(Entry(2), Free);
    GotoAlone(Frame(K0, 3, ES0, true, Entry(2)), Free, ReadOf(0), Decide(Succeeded));
    assert LoopDone(After(T), T, After(T), Helper(Decide(Succeeded), Free));
    run := HelperTurns(run, T, Helper(Decide(Succeeded), Free));
    T := Helper(Decide(Succeeded), Free);
    GotoAlone(Frame(K0, 3, ES0, true, Decide(Succeeded)), Free, ReadOf(0), ReadOutcome);
    assert DecideRead(After(T), T, After(T), Helper(ReadOutcome, Free));
    run := HelperTurns(run, T, Helper(ReadOutcome, Free));
    T := Helper(ReadOutcome, Free);
    GotoAlone(Frame(K0, 3, ES0, true, ReadOutcome), Free, ReadOf(0), Return(false));
    assert DoReadOutcome(After(T), T, After(T), Helper(Return(false), Free));
    run := HelperTurns(run, T, Helper(Return(false), Free));
  }

  /** After a call that returned false a word holds its tag for ever, and thread 2 is reading that word. */
  lemma TagStaysForEver() returns (run: seq<State>)
    ensures Run(run) && Stuck(run[|run| - 1], K0, 1)
    ensures var s := run[|run| - 1];
            |s.th| == 3 && s.th[2].read == ReadOf(1) && K0 in s.g.ops && s.g.ops[K0].status.Failed?
  {
    run := GivesUp();
    var T, T' := Helper(Return(false), Free), Thread(false, [], Free, ReadOf(0));
    assert Pop(T) == T';
    assert DoReturn(After(T), T, After(T), T');
    run := HelperTurns(run, T, T');
  }
}
