/**
 Multiword compare-and-swap with reused descriptors, as a state machine.

 Every step of the machine is one access to shared memory by one thread: a read, a write or a
 compare-and-swap.  Any number of threads run at once and any thread may help any operation whose
 tag it finds.  Each thread owns one KCAS descriptor and one RDCSS descriptor for ever; sequence
 numbers tell the operations that use them apart.

 The maps `ops` and `rops` are history: they record what was published under each tag and what
 became of it.  No guard and no written value depends on them.
 */
module KcasModel {
  import opened Wrappers

  /** Owner and sequence number: the payload of both kinds of tagged word. */
  datatype Tag = Tag(tid: nat, seqno: nat)

  datatype Word = Val(v: nat) | RdcssTag(r: Tag) | KcasTag(k: Tag)

  datatype Status = Undecided | Succeeded | Failed

  datatype KEntry = KEntry(addr: nat, oldval: nat, newval: nat)

  /** A KCAS descriptor; `seqno` and `state` share one word and are read and swapped together. */
  datatype KDesc = KDesc(seqno: nat, state: Status, entries: seq<KEntry>)

  datatype RBody = RBody(addr1: nat, old1: Tag, addr2: nat, old2: nat, new2: Tag)

  datatype RDesc = RDesc(seqno: nat, body: RBody)

  /** History of a published KCAS. */
  datatype Op = Op(entries: seq<KEntry>, status: Status, contradicted: bool)

  /** History of a published RDCSS: the entry it locks, and whether its tag has been in memory. */
  datatype Rop = Rop(body: RBody, index: nat, installed: bool)

  datatype Shared = Shared(
    mem: seq<Word>,
    kd: seq<KDesc>,
    rd: seq<RDesc>,
    ops: map<Tag, Op>,
    rops: map<Tag, Rop>)

  /** The words of a KCAS descriptor, in the granularity in which a snapshot copies them. */
  datatype Field = FSeq | FCount | FAddr(i: nat) | FOld(i: nat) | FNew(i: nat)

  function ReadField(d: KDesc, f: Field): nat {
    match f
    case FSeq => d.seqno
    case FCount => |d.entries|
    case FAddr(i) => if i < |d.entries| then d.entries[i].addr else 0
    case FOld(i) => if i < |d.entries| then d.entries[i].oldval else 0
    case FNew(i) => if i < |d.entries| then d.entries[i].newval else 0
  }

  predicate Complete(snap: map<Field, nat>) {
    && FSeq in snap && FCount in snap
    && forall i: nat :: i < snap[FCount] ==> FAddr(i) in snap && FOld(i) in snap && FNew(i) in snap
  }

  function Decode(snap: map<Field, nat>): seq<KEntry>
    requires Complete(snap)
  {
    seq(snap[FCount], (i: nat) requires i < snap[FCount] => KEntry(snap[FAddr(i)], snap[FOld(i)], snap[FNew(i)]))
  }

  datatype RSnap = RSnap(addr1: Option<nat>, old1: Option<Tag>, addr2: Option<nat>, old2: Option<nat>, new2: Option<Tag>)

  /** Where a thread is inside `help` for one tag. */
  datatype Pc =
    | Copy(snap: map<Field, nat>)   // DESC_SNAPSHOT of another thread's descriptor
    | ReadState                     // first read of the state field
    | Entry(i: nat)                 // about to lock entry i
    | Fill(i: nat)                  // writing the RDCSS descriptor for entry i
    | TryCas(i: nat)                // the compare-and-swap loop of rdcss
    | OwnHelp(i: nat)               // finishing the RDCSS just installed
    | Decide(ns: Status)            // SEQBITS_CAS_FIELD: read the descriptor word
    | DecideCas(ns: Status)         // ... compare-and-swap it
    | DecideRetry(ns: Status)       // ... read it again after a failure
    | ReadOutcome                   // second read of the state field
    | Clean(j: nat, succ: bool)     // phase 2
    | Return(result: bool)

  /** One activation of `help`: `sseq` and `entries` are the fields of its snapshot. */
  datatype Frame = Frame(tag: Tag, sseq: nat, entries: seq<KEntry>, helping: bool, pc: Pc)

  /** The activation of `rdcssHelp`, if any, a thread is in. */
  datatype Slot =
    | Free
    | RCopy(tag: Tag, snap: RSnap)
    | RRead(tag: Tag, body: RBody)
    | RFinish(tag: Tag, body: RBody, undecided: bool)

  /** A call of `readPtr`, if a thread is in one. */
  datatype Read = NotReading | ReadOf(a: nat) | Got(a: nat, v: nat)

  /** Activations of `help` nest: only the last frame of the stack runs. */
  datatype Thread = Thread(building: bool, stack: seq<Frame>, slot: Slot, read: Read)

  datatype State = State(g: Shared, th: seq<Thread>)

  function Top(T: Thread): Frame
    requires T.stack != []
  {
    T.stack[|T.stack| - 1]
  }

  function Goto(T: Thread, pc: Pc): Thread
    requires T.stack != []
  {
    T.(stack := T.stack[|T.stack| - 1 := Top(T).(pc := pc)])
  }

  function Push(T: Thread, k: Tag): Thread {
    T.(stack := T.stack + [Frame(k, 0, [], true, Copy(map[]))])
  }

  function Pop(T: Thread): Thread
    requires T.stack != []
  {
    T.(stack := T.stack[..|T.stack| - 1])
  }

  const EMPTY_RSNAP := RSnap(None, None, None, None, None)

  predicate Quiet(T: Thread) {
    T.stack == [] && T.slot.Free?
  }

  predicate Running(T: Thread) {
    T.stack != [] && T.slot.Free?
  }

  /** What the caller of `execute` promises: distinct addresses, all of them words of the memory. */
  predicate ProperEntries(es: seq<KEntry>, size: nat) {
    && (forall i :: 0 <= i < |es| ==> es[i].addr < size)
    && (forall i, j :: 0 <= i < j < |es| ==> es[i].addr != es[j].addr)
  }

  // ----- history -----

  function NoteInstalled(rops: map<Tag, Rop>, x: Tag): map<Tag, Rop> {
    if x in rops then rops[x := rops[x].(installed := true)] else rops
  }

  function NoteContradiction(ops: map<Tag, Op>, k: Tag): map<Tag, Op> {
    if k in ops then ops[k := ops[k].(contradicted := true)] else ops
  }

  function NoteStatus(ops: map<Tag, Op>, k: Tag, ns: Status): map<Tag, Op> {
    if k in ops then ops[k := ops[k].(status := ns)] else ops
  }

  // ----- start, add, execute -----

  ghost predicate Start(g: Shared, T: Thread, t: nat, g': Shared, T': Thread)
    requires t < |g.kd|
  {
    && Quiet(T) && T.read.NotReading?
    && g' == g.(kd := g.kd[t := g.kd[t].(seqno := g.kd[t].seqno + 1, state := Undecided)])
    && T' == T.(building := true)
  }

  /** Any write to the descriptor between `start` and `execute`: clearing, adding, sorting. */
  ghost predicate Prepare(g: Shared, T: Thread, t: nat, g': Shared, T': Thread)
    requires t < |g.kd|
  {
    && Quiet(T) && T.read.NotReading? && T.building
    && |g'.kd| == |g.kd|
    && g' == g.(kd := g.kd[t := g.kd[t].(entries := g'.kd[t].entries)])
    && T' == T
  }

  ghost predicate Execute(g: Shared, T: Thread, t: nat, g': Shared, T': Thread)
    requires t < |g.kd|
  {
    var d := g.kd[t];
    var k := Tag(t, d.seqno + 1);
    && Quiet(T) && T.read.NotReading? && T.building && ProperEntries(d.entries, |g.mem|)
    && g' == g.(kd := g.kd[t := d.(seqno := d.seqno + 1)], ops := g.ops[k := Op(d.entries, d.state, false)])
    && T' == T.(building := false, stack := [Frame(k, d.seqno + 1, d.entries, false, ReadState)])
  }

  // ----- readPtr -----

  ghost predicate CallRead(g: Shared, T: Thread, g': Shared, T': Thread) {
    && Quiet(T) && T.read.NotReading? && g' == g
    && T'.read.ReadOf? && T'.read.a < |g.mem| && T' == T.(read := T'.read)
  }

  /** A plain value is returned; a tag is helped, and then the word is read again. */
  ghost predicate Load(g: Shared, T: Thread, g': Shared, T': Thread) {
    && Quiet(T) && T.read.ReadOf? && T.read.a < |g.mem| && g' == g
    && match g.mem[T.read.a]
       case Val(v) => T' == T.(read := Got(T.read.a, v))
       case RdcssTag(x) => T' == T.(slot := RCopy(x, EMPTY_RSNAP))
       case KcasTag(k) => T' == Push(T, k)
  }

  ghost predicate ReturnRead(g: Shared, T: Thread, g': Shared, T': Thread) {
    Quiet(T) && T.read.Got? && g' == g && T' == T.(read := NotReading)
  }

  // ----- helpOther: snapshot and validation -----

  ghost predicate CopyWord(g: Shared, T: Thread, f: Field, g': Shared, T': Thread) {
    && Running(T) && Top(T).pc.Copy? && Top(T).tag.tid < |g.kd| && g' == g
    && T' == Goto(T, Copy(Top(T).pc.snap[f := ReadField(g.kd[Top(T).tag.tid], f)]))
  }

  ghost predicate Validate(g: Shared, T: Thread, g': Shared, T': Thread) {
    && Running(T) && Top(T).pc.Copy? && Top(T).tag.tid < |g.kd| && Complete(Top(T).pc.snap) && g' == g
    && var snap := Top(T).pc.snap;
       T' == if g.kd[Top(T).tag.tid].seqno == Top(T).tag.seqno
             then T.(stack := T.stack[|T.stack| - 1 := Frame(Top(T).tag, snap[FSeq], Decode(snap), true, ReadState)])
             else Pop(T)
  }

  // ----- help -----

  ghost predicate DoReadState(g: Shared, T: Thread, g': Shared, T': Thread) {
    && Running(T) && Top(T).pc.ReadState? && Top(T).tag.tid < |g.kd| && g' == g
    && var d := g.kd[Top(T).tag.tid];
       T' == Goto(T, if d.seqno != Top(T).tag.seqno then Return(false)
                     else if d.state.Undecided? then Entry(if Top(T).helping then 1 else 0)
                     else ReadOutcome)
  }

  ghost predicate LoopDone(g: Shared, T: Thread, g': Shared, T': Thread) {
    && Running(T) && Top(T).pc.Entry? && Top(T).pc.i >= |Top(T).entries| && g' == g
    && T' == Goto(T, Decide(Succeeded))
  }

  ghost predicate NewRdcss(g: Shared, T: Thread, t: nat, g': Shared, T': Thread)
    requires t < |g.rd|
  {
    && Running(T) && Top(T).pc.Entry? && Top(T).pc.i < |Top(T).entries|
    && g' == g.(rd := g.rd[t := g.rd[t].(seqno := g.rd[t].seqno + 1)])
    && T' == Goto(T, Fill(Top(T).pc.i))
  }

  function Target(f: Frame, i: nat): RBody
    requires i < |f.entries|
  {
    RBody(f.tag.tid, f.tag, f.entries[i].addr, f.entries[i].oldval, f.tag)
  }

  ghost predicate FillField(g: Shared, T: Thread, t: nat, g': Shared, T': Thread)
    requires t < |g.rd|
  {
    && Running(T) && Top(T).pc.Fill? && Top(T).pc.i < |Top(T).entries|
    && var want := Target(Top(T), Top(T).pc.i);
       var b := g.rd[t].body;
       && |g'.rd| == |g.rd|
       && g'.rd[t].body in {b.(addr1 := want.addr1), b.(old1 := want.old1), b.(addr2 := want.addr2),
                            b.(old2 := want.old2), b.(new2 := want.new2)}
       && g' == g.(rd := g.rd[t := g.rd[t].(body := g'.rd[t].body)])
       && T' == T
  }

  ghost predicate PublishRdcss(g: Shared, T: Thread, t: nat, g': Shared, T': Thread)
    requires t < |g.rd|
  {
    && Running(T) && Top(T).pc.Fill? && Top(T).pc.i < |Top(T).entries|
    && var i := Top(T).pc.i;
       var d := g.rd[t];
       && d.body == Target(Top(T), i)
       && g' == g.(rd := g.rd[t := d.(seqno := d.seqno + 1)],
                   rops := g.rops[Tag(t, d.seqno + 1) := Rop(d.body, i, false)])
       && T' == Goto(T, TryCas(i))
  }

  /** One compare-and-swap of the loop in `rdcss`, and what `help` does with its result. */
  ghost predicate DoTryCas(g: Shared, T: Thread, t: nat, g': Shared, T': Thread)
    requires t < |g.rd|
  {
    && Running(T) && Top(T).pc.TryCas?
    && var i := Top(T).pc.i;
       var k := Top(T).tag;
       var b := g.rd[t].body;
       var x := Tag(t, g.rd[t].seqno);
       && b.addr2 < |g.mem|
       && match g.mem[b.addr2]
          case RdcssTag(y) => g' == g && T' == T.(slot := RCopy(y, EMPTY_RSNAP))
          case KcasTag(k') =>
            g' == g && T' == if k' == k then Goto(T, Entry(i + 1)) else Push(Goto(T, Entry(i)), k')
          case Val(v) =>
            if v == b.old2 then
              && g' == g.(mem := g.mem[b.addr2 := RdcssTag(x)], rops := NoteInstalled(g.rops, x))
              && T' == Goto(T, OwnHelp(i)).(slot := RRead(x, b))
            else
              && g' == g.(ops := NoteContradiction(g.ops, k))
              && T' == Goto(T, Decide(Failed))
  }

  ghost predicate OwnDone(g: Shared, T: Thread, g': Shared, T': Thread) {
    && Running(T) && Top(T).pc.OwnHelp? && g' == g
    && T' == Goto(T, Entry(Top(T).pc.i + 1))
  }

  ghost predicate DecideRead(g: Shared, T: Thread, g': Shared, T': Thread) {
    && Running(T) && Top(T).pc.Decide? && Top(T).tag.tid < |g.kd| && g' == g
    && T' == Goto(T, if g.kd[Top(T).tag.tid].seqno != Top(T).sseq then ReadOutcome else DecideCas(Top(T).pc.ns))
  }

  ghost predicate DoDecideCas(g: Shared, T: Thread, g': Shared, T': Thread) {
    && Running(T) && Top(T).pc.DecideCas? && Top(T).tag.tid < |g.kd|
    && var k := Top(T).tag;
       var ns := Top(T).pc.ns;
       var d := g.kd[k.tid];
       if d.seqno == Top(T).sseq && d.state.Undecided? then
         && g' == g.(kd := g.kd[k.tid := d.(state := ns)], ops := NoteStatus(g.ops, k, ns))
         && T' == Goto(T, ReadOutcome)
       else
         g' == g && T' == Goto(T, DecideRetry(ns))
  }

  ghost predicate DoDecideRetry(g: Shared, T: Thread, g': Shared, T': Thread) {
    && Running(T) && Top(T).pc.DecideRetry? && Top(T).tag.tid < |g.kd| && g' == g
    && var d := g.kd[Top(T).tag.tid];
       T' == Goto(T, if !d.state.Undecided? || d.seqno != Top(T).sseq then ReadOutcome else DecideCas(Top(T).pc.ns))
  }

  ghost predicate DoReadOutcome(g: Shared, T: Thread, g': Shared, T': Thread) {
    && Running(T) && Top(T).pc.ReadOutcome? && Top(T).tag.tid < |g.kd| && g' == g
    && var d := g.kd[Top(T).tag.tid];
       T' == Goto(T, if d.seqno != Top(T).tag.seqno then Return(false) else Clean(0, d.state.Succeeded?))
  }

  ghost predicate DoClean(g: Shared, T: Thread, g': Shared, T': Thread) {
    && Running(T) && Top(T).pc.Clean?
    && var Clean(j, succ) := Top(T).pc;
       if j < |Top(T).entries| then
         var e := Top(T).entries[j];
         && e.addr < |g.mem|
         && g' == (if g.mem[e.addr] == KcasTag(Top(T).tag)
                   then g.(mem := g.mem[e.addr := Val(if succ then e.newval else e.oldval)])
                   else g)
         && T' == Goto(T, Clean(j + 1, succ))
       else
         g' == g && T' == Goto(T, Return(succ))
  }

  ghost predicate DoReturn(g: Shared, T: Thread, g': Shared, T': Thread) {
    && Running(T) && Top(T).pc.Return? && g' == g && T' == Pop(T)
  }

  // ----- rdcssHelpOther and rdcssHelp -----

  ghost predicate CopyRWord(g: Shared, T: Thread, g': Shared, T': Thread) {
    && T.slot.RCopy? && T.slot.tag.tid < |g.rd| && g' == g
    && var b := g.rd[T.slot.tag.tid].body;
       var sn := T.slot.snap;
       exists sn' <- {sn.(addr1 := Some(b.addr1)), sn.(old1 := Some(b.old1)), sn.(addr2 := Some(b.addr2)),
                      sn.(old2 := Some(b.old2)), sn.(new2 := Some(b.new2))} ::
         T' == T.(slot := RCopy(T.slot.tag, sn'))
  }

  ghost predicate ValidateR(g: Shared, T: Thread, g': Shared, T': Thread) {
    && T.slot.RCopy? && T.slot.tag.tid < |g.rd| && g' == g
    && var sn := T.slot.snap;
       && sn.addr1.Some? && sn.old1.Some? && sn.addr2.Some? && sn.old2.Some? && sn.new2.Some?
       && T' == T.(slot := if g.rd[T.slot.tag.tid].seqno == T.slot.tag.seqno
                           then RRead(T.slot.tag, RBody(sn.addr1.value, sn.old1.value, sn.addr2.value, sn.old2.value, sn.new2.value))
                           else Free)
  }

  /** A sequence number that moved on is read as a decided state. */
  ghost predicate DoRRead(g: Shared, T: Thread, g': Shared, T': Thread) {
    && T.slot.RRead? && T.slot.body.addr1 < |g.kd| && g' == g
    && var d := g.kd[T.slot.body.addr1];
       T' == T.(slot := RFinish(T.slot.tag, T.slot.body, d.seqno == T.slot.body.old1.seqno && d.state.Undecided?))
  }

  ghost predicate DoRFinish(g: Shared, T: Thread, g': Shared, T': Thread) {
    && T.slot.RFinish? && T.slot.body.addr2 < |g.mem|
    && var b := T.slot.body;
       && g' == (if g.mem[b.addr2] == RdcssTag(T.slot.tag)
                 then g.(mem := g.mem[b.addr2 := if T.slot.undecided then KcasTag(b.new2) else Val(b.old2)])
                 else g)
       && T' == T.(slot := Free)
  }

  // ----- runs -----

  ghost predicate ThreadStep(g: Shared, T: Thread, t: nat, g': Shared, T': Thread)
    requires t < |g.kd| && t < |g.rd|
  {
    || Start(g, T, t, g', T') || Prepare(g, T, t, g', T') || Execute(g, T, t, g', T')
    || CallRead(g, T, g', T') || Load(g, T, g', T') || ReturnRead(g, T, g', T')
    || (exists f: Field :: CopyWord(g, T, f, g', T')) || Validate(g, T, g', T')
    || DoReadState(g, T, g', T') || LoopDone(g, T, g', T')
    || NewRdcss(g, T, t, g', T') || FillField(g, T, t, g', T') || PublishRdcss(g, T, t, g', T')
    || DoTryCas(g, T, t, g', T') || OwnDone(g, T, g', T')
    || DecideRead(g, T, g', T') || DoDecideCas(g, T, g', T') || DoDecideRetry(g, T, g', T')
    || DoReadOutcome(g, T, g', T') || DoClean(g, T, g', T') || DoReturn(g, T, g', T')
    || CopyRWord(g, T, g', T') || ValidateR(g, T, g', T') || DoRRead(g, T, g', T') || DoRFinish(g, T, g', T')
  }

  ghost predicate StepOf(s: State, s': State, t: nat) {
    && t < |s.th| && |s'.th| == |s.th| && |s.g.kd| == |s.th| && |s.g.rd| == |s.th|
    && s'.th == s.th[t := s'.th[t]]
    && ThreadStep(s.g, s.th[t], t, s'.g, s'.th[t])
  }

  ghost predicate Next(s: State, s': State) {
    exists t: nat :: StepOf(s, s', t)
  }

  ghost predicate Init(s: State) {
    && |s.g.kd| == |s.th| && |s.g.rd| == |s.th|
    && s.g.ops == map[] && s.g.rops == map[]
    && (forall a :: 0 <= a < |s.g.mem| ==> s.g.mem[a].Val?)
    && (forall t :: 0 <= t < |s.th| ==> s.th[t] == Thread(false, [], Free, NotReading))
    && (forall t :: 0 <= t < |s.th| ==> s.g.kd[t].seqno == 1 && s.g.kd[t].state == Undecided)
    && (forall t :: 0 <= t < |s.th| ==> s.g.rd[t].seqno == 1)
  }

  ghost predicate Run(run: seq<State>) {
    && |run| > 0 && Init(run[0])
    && forall n {:trigger Next(run[n], run[n + 1])} :: 0 <= n < |run| - 1 ==> Next(run[n], run[n + 1])
  }
}
