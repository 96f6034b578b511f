/**
 The lock-free bag of blocks: a stack linked through the blocks, whose head carries a version tag.

 The state is shared memory, one program counter per thread and two histories: the chain that the pushes
 and pops so far should have left, and who owns a block that is not in it.  A step is one access to shared
 memory, or a call or a return.  An owner may overwrite the link of its block at any time, also while a
 stalled pop still means to read it.
 */
module TaggedStackModel {
  import opened Wrappers

  type Thread = nat
  type Block = nat
  type Link = Option<Block>

  datatype Head = Head(ptr: Link, tag: nat)

  datatype Pc =
    | Idle
    | GetLoad
    | GetNext(exp: Head)
    | GetCas(exp: Head, next: Link)
    | GetClear(block: Block)
    | Got(result: Link)
    | AddLoad(block: Block)
    | AddLink(block: Block, exp: Head)
    | AddCas(block: Block, exp: Head)

  datatype State = State(head: Head, next: map<Block, Link>, pcs: map<Thread, Pc>, chain: seq<Block>, owner: map<Block, Thread>)

  ghost predicate Init(s: State) {
    && s.head == Head(None, 0) && s.chain == []
    && (forall t <- s.pcs :: s.pcs[t] == Idle)
    && s.owner.Keys == s.next.Keys && forall b <- s.owner :: s.owner[b] in s.pcs
  }

  /** Only the program counter of t changes. */
  ghost predicate Goes(s: State, s': State, t: Thread, pc: Pc) {
    s' == s.(pcs := s.pcs[t := pc])
  }

  // ----- getBlock -----

  ghost predicate CallGet(s: State, s': State, t: Thread)
    requires t in s.pcs
  {
    s.pcs[t].Idle? && Goes(s, s', t, GetLoad)
  }

  ghost predicate LoadForGet(s: State, s': State, t: Thread)
    requires t in s.pcs
  {
    s.pcs[t].GetLoad? && Goes(s, s', t, if s.head.ptr.None? then Got(None) else GetNext(s.head))
  }

  ghost predicate ReadNext(s: State, s': State, t: Thread)
    requires t in s.pcs
  {
    && s.pcs[t].GetNext? && s.pcs[t].exp.ptr.Some? && s.pcs[t].exp.ptr.value in s.next
    && Goes(s, s', t, GetCas(s.pcs[t].exp, s.next[s.pcs[t].exp.ptr.value]))
  }

  ghost predicate Pop(s: State, s': State, t: Thread)
    requires t in s.pcs
  {
    && s.pcs[t].GetCas? && s.head == s.pcs[t].exp && s.head.ptr.Some?
    && var b := s.head.ptr.value;
       s' == s.(head := Head(s.pcs[t].next, s.head.tag + 1), pcs := s.pcs[t := GetClear(b)],
                chain := if s.chain == [] then [] else s.chain[1..], owner := s.owner[b := t])
  }

  /** The compare-exchange of a pop fails; the weak form may do so without a reason. */
  ghost predicate PopFails(s: State, s': State, t: Thread)
    requires t in s.pcs
  {
    s.pcs[t].GetCas? && Goes(s, s', t, GetLoad)
  }

  ghost predicate ClearNext(s: State, s': State, t: Thread)
    requires t in s.pcs
  {
    && s.pcs[t].GetClear?
    && var b := s.pcs[t].block;
       s' == s.(next := s.next[b := None], pcs := s.pcs[t := Got(Some(b))])
  }

  ghost predicate ReturnGet(s: State, s': State, t: Thread)
    requires t in s.pcs
  {
    s.pcs[t].Got? && Goes(s, s', t, Idle)
  }

  // ----- addBlock -----

  ghost predicate CallAdd(s: State, s': State, t: Thread)
    requires t in s.pcs
  {
    s.pcs[t].Idle? && exists b :: b in s.owner && s.owner[b] == t && Goes(s, s', t, AddLoad(b))
  }

  ghost predicate LoadForAdd(s: State, s': State, t: Thread)
    requires t in s.pcs
  {
    s.pcs[t].AddLoad? && Goes(s, s', t, AddLink(s.pcs[t].block, s.head))
  }

  ghost predicate WriteLink(s: State, s': State, t: Thread)
    requires t in s.pcs
  {
    && s.pcs[t].AddLink?
    && s' == s.(next := s.next[s.pcs[t].block := s.pcs[t].exp.ptr],
                pcs := s.pcs[t := AddCas(s.pcs[t].block, s.pcs[t].exp)])
  }

  ghost predicate Push(s: State, s': State, t: Thread)
    requires t in s.pcs
  {
    && s.pcs[t].AddCas? && s.head == s.pcs[t].exp
    && var b := s.pcs[t].block;
       s' == s.(head := Head(Some(b), s.head.tag + 1), pcs := s.pcs[t := Idle], chain := [b] + s.chain,
                owner := s.owner - {b})
  }

  ghost predicate PushFails(s: State, s': State, t: Thread)
    requires t in s.pcs
  {
    s.pcs[t].AddCas? && Goes(s, s', t, AddLoad(s.pcs[t].block))
  }

  // ----- the owners of blocks -----

  ghost predicate Touch(s: State, s': State, t: Thread, b: Block, v: Link)
    requires t in s.pcs
  {
    s.pcs[t].Idle? && b in s.owner && s.owner[b] == t && s' == s.(next := s.next[b := v])
  }

  ghost predicate Allocate(s: State, s': State, t: Thread, b: Block, v: Link)
    requires t in s.pcs
  {
    s.pcs[t].Idle? && b !in s.next && s' == s.(next := s.next[b := v], owner := s.owner[b := t])
  }

  ghost predicate OwnerStep(s: State, s': State, t: Thread)
    requires t in s.pcs
  {
    exists b, v :: Touch(s, s', t, b, v) || Allocate(s, s', t, b, v)
  }

  ghost predicate GetStep(s: State, s': State, t: Thread)
    requires t in s.pcs
  {
    || CallGet(s, s', t) || LoadForGet(s, s', t) || ReadNext(s, s', t) || Pop(s, s', t) || PopFails(s, s', t)
    || ClearNext(s, s', t) || ReturnGet(s, s', t)
  }

  ghost predicate AddStep(s: State, s': State, t: Thread)
    requires t in s.pcs
  {
    || CallAdd(s, s', t) || LoadForAdd(s, s', t) || WriteLink(s, s', t) || Push(s, s', t) || PushFails(s, s', t)
  }

  ghost predicate Step(s: State, s': State, t: Thread) {
    t in s.pcs && (GetStep(s, s', t) || AddStep(s, s', t) || OwnerStep(s, s', t))
  }

  ghost predicate Next(s: State, s': State) {
    exists t :: Step(s, s', t)
  }

  ghost predicate Run(run: seq<State>) {
    && run != [] && Init(run[0])
    && forall i {:trigger Next(run[i], run[i + 1])} :: 0 <= i < |run| - 1 ==> Next(run[i], run[i + 1])
  }
}

/** The tag makes every successful pop install the successor the head has at that moment. */
module TaggedStackProof {
  import opened Wrappers
  import opened TaggedStackModel

  function At(chain: seq<Block>, i: nat): Link {
    if i < |chain| then Some(chain[i]) else None
  }

  /** Following the links from the head visits the chain, once each, and ends. */
  ghost predicate Linked(s: State) {
    && s.head.ptr == At(s.chain, 0)
    && (forall i :: 0 <= i < |s.chain| ==> s.chain[i] in s.next && s.next[s.chain[i]] == At(s.chain, i + 1))
    && forall i, j :: 0 <= i < j < |s.chain| ==> s.chain[i] != s.chain[j]
  }

  /** Every block is in the chain or has an owner, never both. */
  ghost predicate Divided(s: State) {
    && (forall b {:trigger b in s.chain} {:trigger b in s.next} :: b in s.next ==> (b in s.chain <==> b !in s.owner))
    && forall b {:trigger b in s.owner} :: b in s.owner ==> b in s.next && s.owner[b] in s.pcs
  }

  /** A head read earlier: its tag tells whether it is still the head. */
  ghost predicate Seen(s: State, exp: Head) {
    exp.tag <= s.head.tag && (exp.tag == s.head.tag ==> exp == s.head)
  }

  ghost predicate Owns(s: State, t: Thread, b: Block) {
    b in s.owner && s.owner[b] == t
  }

  ghost predicate PcOk(s: State, t: Thread, pc: Pc) {
    match pc
    case Idle => true
    case GetLoad => true
    case GetNext(exp) => Seen(s, exp) && exp.ptr.Some? && exp.ptr.value in s.next
    case GetCas(exp, n) => Seen(s, exp) && exp.ptr.Some? && exp.ptr.value in s.next && (exp == s.head ==> n == At(s.chain, 1))
    case GetClear(b) => Owns(s, t, b)
    case Got(r) => r.Some? ==> Owns(s, t, r.value) && r.value in s.next
    case AddLoad(b) => Owns(s, t, b)
    case AddLink(b, exp) => Owns(s, t, b) && Seen(s, exp)
    case AddCas(b, exp) => Owns(s, t, b) && Seen(s, exp) && b in s.next && s.next[b] == exp.ptr
  }

  ghost predicate Inv(s: State) {
    && Linked(s) && Divided(s)
    && forall t {:trigger PcOk(s, t, s.pcs[t])} :: t in s.pcs ==> PcOk(s, t, s.pcs[t])
  }

  // ----- effects on the stack -----

  /** What a step may do to the chain: nothing, take the first block, or put one in front. */
  ghost predicate Pops(s: State, s': State, b: Block) {
    s.chain == [b] + s'.chain && s'.head.tag == s.head.tag + 1 && b !in s.owner && b in s'.owner
  }

  ghost predicate Pushes(s: State, s': State, b: Block) {
    s'.chain == [b] + s.chain && s'.head.tag == s.head.tag + 1 && b in s.owner && b !in s'.owner
  }

  ghost predicate Rests(s: State, s': State) {
    s'.chain == s.chain && s'.head == s.head
  }

  /** No owner loses its block but by pushing it. */
  ghost predicate Retains(s: State, s': State) {
    && (forall b :: b in s.owner && b !in s'.owner ==> Pushes(s, s', b))
    && forall b :: b in s.next ==> b in s'.next
  }

  ghost predicate StackStep(s: State, s': State) {
    && Retains(s, s')
    && (Rests(s, s') || (exists b :: Pops(s, s', b)) || (exists b :: Pushes(s, s', b)))
  }

  // ----- every step keeps the invariant -----

  lemma InitInv(s: State)
    requires Init(s)
    ensures Inv(s)
  {
  }

  /** Links of owned blocks may change; chain and head stay. */
  ghost predicate Relinks(s: State, s': State, t: Thread) {
    && Rests(s, s') && s'.pcs.Keys == s.pcs.Keys
    && (forall b {:trigger b in s.next} :: b in s.next ==> b in s'.next && (s'.next[b] == s.next[b] || Owns(s, t, b)))
    && (forall b {:trigger b in s'.next} :: b in s'.next && b !in s.next ==> Owns(s', t, b))
    && (forall b {:trigger b in s.owner} :: b in s.owner ==> b in s'.owner && s'.owner[b] == s.owner[b])
    && (forall b {:trigger b in s'.owner} :: b in s'.owner && b !in s.owner ==> b in s'.next && b !in s.next)
    && forall u {:trigger PcOk(s, u, s.pcs[u])} :: u in s.pcs && u != t ==> s'.pcs[u] == s.pcs[u]
  }

  lemma RelinkKeeps(s: State, s': State, t: Thread)
    requires Inv(s) && t in s.pcs && Relinks(s, s', t) && PcOk(s', t, s'.pcs[t])
    ensures Inv(s') && StackStep(s, s')
  {
    assert Linked(s');
    assert Divided(s');
    forall u | u in s'.pcs ensures PcOk(s', u, s'.pcs[u]) {
      assert PcOk(s, u, s.pcs[u]);
    }
  }

  /** A step that only moves the program counter. */
  lemma GoesKeeps(s: State, s': State, t: Thread, pc: Pc)
    requires Inv(s) && t in s.pcs && Goes(s, s', t, pc) && PcOk(s, t, pc)
    ensures Inv(s') && StackStep(s, s')
  {
    assert PcOk(s', t, pc);
    RelinkKeeps(s, s', t);
  }

  lemma GetKeeps(s: State, s': State, t: Thread)
    requires Inv(s) && t in s.pcs && GetStep(s, s', t) && !Pop(s, s', t)
    ensures Inv(s') && StackStep(s, s')
  {
    assert PcOk(s, t, s.pcs[t]);
    if ClearNext(s, s', t) {
      RelinkKeeps(s, s', t);
    } else {
      assert Goes(s, s', t, s'.pcs[t]);
      GoesKeeps(s, s', t, s'.pcs[t]);
    }
  }

  lemma AddKeeps(s: State, s': State, t: Thread)
    requires Inv(s) && t in s.pcs && AddStep(s, s', t) && !Push(s, s', t)
    ensures Inv(s') && StackStep(s, s')
  {
    assert PcOk(s, t, s.pcs[t]);
    if WriteLink(s, s', t) {
      RelinkKeeps(s, s', t);
    } else {
      assert Goes(s, s', t, s'.pcs[t]);
      GoesKeeps(s, s', t, s'.pcs[t]);
    }
  }

  lemma OwnerKeeps(s: State, s': State, t: Thread)
    requires Inv(s) && t in s.pcs && OwnerStep(s, s', t)
    ensures Inv(s') && StackStep(s, s')
  {
    var b, v :| Touch(s, s', t, b, v) || Allocate(s, s', t, b, v);
    if Touch(s, s', t, b, v) { TouchRelinks(s, s', t, b, v); } else { AllocateRelinks(s, s', t, b, v); }
    assert PcOk(s', t, Idle);
    RelinkKeeps(s, s', t);
  }

  lemma TouchRelinks(s: State, s': State, t: Thread, b: Block, v: Link)
    requires Divided(s) && t in s.pcs && Touch(s, s', t, b, v)
    ensures Relinks(s, s', t) && s'.pcs == s.pcs
  {
  }

  lemma AllocateRelinks(s: State, s': State, t: Thread, b: Block, v: Link)
    requires Divided(s) && t in s.pcs && Allocate(s, s', t, b, v)
    ensures Relinks(s, s', t) && s'.pcs == s.pcs
  {
    assert b !in s.owner by { assert b in s.owner ==> b in s.next; }
  }

  /** A successful pop takes the first block of the chain and installs the second one as head. */
  lemma PopKeeps(s: State, s': State, t: Thread)
    requires Inv(s) && t in s.pcs && Pop(s, s', t)
    ensures Inv(s') && StackStep(s, s')
    ensures s.chain != [] && s.head.ptr == Some(s.chain[0]) && s'.head.ptr == s.next[s.chain[0]] == At(s.chain, 1)
    ensures s'.chain == s.chain[1..] && s'.pcs[t] == GetClear(s.chain[0])
    ensures s.chain[0] !in s.owner && Owns(s', t, s.chain[0])
  {
    assert PcOk(s, t, s.pcs[t]);
    PopChain(s, s', t);
    PopDivides(s, s', t);
    PopPcs(s, s', t);
    assert Pops(s, s', s.chain[0]);
  }

  lemma PopChain(s: State, s': State, t: Thread)
    requires Linked(s) && t in s.pcs && Pop(s, s', t) && PcOk(s, t, s.pcs[t])
    ensures s.chain != [] && s'.head.ptr == At(s.chain, 1) && s'.chain == s.chain[1..]
    ensures Linked(s')
  {
  }

  lemma PopDivides(s: State, s': State, t: Thread)
    requires Linked(s) && Divided(s) && t in s.pcs && Pop(s, s', t) && s.chain != []
    ensures Divided(s') && s.chain[0] !in s.owner
  {
    assert s.chain[0] in s.chain;
    forall b | b in s'.next ensures b in s'.chain <==> b !in s'.owner { InTail(s.chain, b); }
  }

  lemma PopPcs(s: State, s': State, t: Thread)
    requires Inv(s) && t in s.pcs && Pop(s, s', t) && s.chain != [] && s.chain[0] !in s.owner
    ensures forall u {:trigger PcOk(s', u, s'.pcs[u])} :: u in s'.pcs ==> PcOk(s', u, s'.pcs[u])
  {
    forall u | u in s'.pcs ensures PcOk(s', u, s'.pcs[u]) {
      assert PcOk(s, u, s.pcs[u]);
    }
  }

  lemma InTail(c: seq<Block>, b: Block)
    requires c != [] && forall i, j :: 0 <= i < j < |c| ==> c[i] != c[j]
    ensures b in c[1..] <==> b in c && b != c[0]
  {
    if b in c && b != c[0] {
      var i :| 0 <= i < |c| && c[i] == b;
      assert c[1..][i - 1] == b;
    }
  }

  lemma PushKeeps(s: State, s': State, t: Thread)
    requires Inv(s) && t in s.pcs && Push(s, s', t)
    ensures Inv(s') && StackStep(s, s') && Pushes(s, s', s.pcs[t].block) && Owns(s, t, s.pcs[t].block)
  {
    assert PcOk(s, t, s.pcs[t]);
    assert Pushes(s, s', s.pcs[t].block);
    forall u | u in s'.pcs ensures PcOk(s', u, s'.pcs[u]) {
      assert PcOk(s, u, s.pcs[u]);
    }
  }

  lemma StepKeeps(s: State, s': State, t: Thread)
    requires Inv(s) && Step(s, s', t)
    ensures Inv(s') && StackStep(s, s')
  {
    if Pop(s, s', t) {
      PopKeeps(s, s', t);
    } else if Push(s, s', t) {
      PushKeeps(s, s', t);
    } else if GetStep(s, s', t) {
      GetKeeps(s, s', t);
    } else if AddStep(s, s', t) {
      AddKeeps(s, s', t);
    } else {
      OwnerKeeps(s, s', t);
    }
  }

  // ----- whole runs -----

  lemma NextKeeps(s: State, s': State)
    requires Inv(s) && Next(s, s')
    ensures Inv(s') && StackStep(s, s')
  {
    var t :| Step(s, s', t);
    StepKeeps(s, s', t);
  }

  lemma {:induction false} RunInv(run: seq<State>, n: nat)
    requires Run(run) && n < |run|
    ensures Inv(run[n])
  {
    if n == 0 {
      InitInv(run[0]);
    } else {
      var m := n - 1;
      RunInv(run, m);
      assert Next(run[m], run[m + 1]);
      NextKeeps(run[m], run[m + 1]);
    }
  }

  /** In a run the stack behaves like an atomic one: every step rests, pops the first block or pushes one. */
  lemma RunIsStack(run: seq<State>, n: nat)
    requires Run(run) && n + 1 < |run|
    ensures StackStep(run[n], run[n + 1])
  {
    RunInv(run, n);
    assert Next(run[n], run[n + 1]);
    NextKeeps(run[n], run[n + 1]);
  }

  /** Versions only grow, and while the version is the same nothing has happened, however long the stall. */
  lemma {:induction false} SameTagSameChain(run: seq<State>, i: nat, j: nat)
    requires Run(run) && i <= j < |run|
    ensures run[i].head.tag <= run[j].head.tag
    ensures run[i].head.tag == run[j].head.tag ==> Rests(run[i], run[j])
  {
    if i < j {
      SameTagSameChain(run, i, j - 1);
      RunIsStack(run, j - 1);
    }
  }

  /** A pop that succeeds after a stall installs the true successor: nothing was pushed or popped since it
      read the head, and the link it read is still the one of the first block. */
  lemma StalledPop(run: seq<State>, i: nat, k: nat, j: nat, t: Thread)
    requires Run(run) && i <= k <= j && j + 1 < |run|
    requires t in run[j].pcs && Pop(run[j], run[j + 1], t) && run[i].head == run[j].pcs[t].exp
    ensures Rests(run[i], run[k])
    ensures run[j].chain != [] && run[j + 1].head.ptr == At(run[j].chain, 1) && run[j + 1].chain == run[j].chain[1..]
  {
    SameTagSameChain(run, i, k);
    SameTagSameChain(run, k, j);
    RunInv(run, j);
    PopKeeps(run[j], run[j + 1], t);
  }

  /** An owner that does not push its block keeps it out of the stack. */
  lemma {:induction false} StaysOut(run: seq<State>, i: nat, j: nat, b: Block)
    requires Run(run) && i <= j < |run| && b in run[i].owner
    requires forall k :: i <= k < j ==> !Pushes(run[k], run[k + 1], b)
    ensures b in run[j].owner
  {
    if i < j {
      StaysOut(run, i, j - 1, b);
      var m := j - 1;
      RunIsStack(run, m);
      assert !Pushes(run[m], run[m + 1], b);
    }
  }

  /** No block is handed out twice without being put back in between. */
  lemma NotHandedOutTwice(run: seq<State>, i: nat, j: nat, b: Block)
    requires Run(run) && i < j && j + 1 < |run|
    requires Pops(run[i], run[i + 1], b) && Pops(run[j], run[j + 1], b)
    ensures exists k :: i < k < j && Pushes(run[k], run[k + 1], b)
  {
    if forall k :: i < k < j ==> !Pushes(run[k], run[k + 1], b) {
      StaysOut(run, i + 1, j, b);
    }
  }

  /** No block is lost: those on the chain and those with an owner are all there are. */
  lemma NothingLost(run: seq<State>, n: nat)
    requires Run(run) && n < |run|
    ensures |run[n].chain| + |run[n].owner| == |run[n].next|
    ensures run[0].next.Keys <= run[n].next.Keys
  {
    RunInv(run, n);
    Counted(run[n]);
    KeysGrow(run, n);
  }

  ghost function Elements(c: seq<Block>): set<Block> { set b | b in c }

  lemma Counted(s: State)
    requires Linked(s) && Divided(s)
    ensures |s.chain| + |s.owner| == |s.next|
  {
    DistinctSize(s.chain);
    forall b ensures b in Elements(s.chain) <==> b in s.next.Keys && b !in s.owner.Keys {
      if b in s.chain { var i :| 0 <= i < |s.chain| && s.chain[i] == b; }
    }
    SplitSize(Elements(s.chain), s.owner.Keys, s.next.Keys);
    assert |s.owner.Keys| == |s.owner| && |s.next.Keys| == |s.next|;
  }

  lemma SplitSize(part: set<Block>, rest: set<Block>, all: set<Block>)
    requires rest <= all && forall b :: b in part <==> b in all && b !in rest
    ensures |part| + |rest| == |all|
  {
    assert part == all - rest;
  }

  lemma {:induction false} KeysGrow(run: seq<State>, n: nat)
    requires Run(run) && n < |run|
    ensures run[0].next.Keys <= run[n].next.Keys
  {
    if n > 0 {
      KeysGrow(run, n - 1);
      RunIsStack(run, n - 1);
    }
  }

  lemma {:induction false} DistinctSize(c: seq<Block>)
    requires forall i, j :: 0 <= i < j < |c| ==> c[i] != c[j]
    ensures |Elements(c)| == |c|
  {
    if c != [] {
      DistinctSize(c[1..]);
      forall b ensures b in Elements(c[1..]) <==> b in Elements(c) && b != c[0] { InTail(c, b); }
      assert Elements(c) == Elements(c[1..]) + {c[0]};
    }
  }

  /** Getting no block means that the stack was empty when the head was read. */
  lemma EmptyPop(run: seq<State>, n: nat, t: Thread)
    requires Run(run) && n + 1 < |run| && t in run[n].pcs && LoadForGet(run[n], run[n + 1], t)
    ensures run[n + 1].pcs[t] == Got(None) <==> run[n].chain == []
  {
    RunInv(run, n);
  }
}
