/** Trees of a self-adjusting search tree: what they hold, when they validate and when they are balanced. */
module GsatTrees {
  /** A member with its score and its access count, which is negative when the member is marked as deleted. */
  datatype Item = Item(score: int, accesses: int, member: nat)

  /** Representative `rep` with the child to its left, and how many unmarked members each of them counts for. */
  datatype Branch = Branch(child: Tree, childCount: nat, rep: Item, repCount: nat)

  datatype Tree =
    | Nil
    | Node(leftBound: int, rightBound: int, asize: nat, capacity: nat, branches: seq<Branch>, last: Tree, lastCount: nat)

  predicate Marked(x: Item) { x.accesses < 0 }

  function Abs(n: int): nat { if n < 0 then -n else n }

  // ----- contents -----

  function InOrder(t: Tree): seq<Item>
    decreases t
  {
    match t
    case Nil => []
    case Node(_, _, _, _, branches, last, _) => Flatten(branches) + InOrder(last)
  }

  function Flatten(bs: seq<Branch>): seq<Item>
    decreases bs
  {
    if bs == [] then [] else Flatten(bs[..|bs| - 1]) + BranchItems(bs[|bs| - 1])
  }

  function BranchItems(b: Branch): seq<Item>
    decreases b
  {
    InOrder(b.child) + [b.rep]
  }

  /** How many items are not marked. */
  function Unmarked(s: seq<Item>): nat {
    if s == [] then 0 else Unmarked(s[..|s| - 1]) + if Marked(s[|s| - 1]) then 0 else 1
  }

  lemma {:induction false} UnmarkedConcat(a: seq<Item>, b: seq<Item>)
    ensures Unmarked(a + b) == Unmarked(a) + Unmarked(b)
  {
    if b == [] {
      assert a + b == a;
    } else {
      UnmarkedConcat(a, b[..|b| - 1]);
      assert (a + b)[..|a + b| - 1] == a + b[..|b| - 1];
    }
  }

  /** All accesses to some items. */
  function Weight(s: seq<Item>): nat {
    if s == [] then 0 else Weight(s[..|s| - 1]) + Abs(s[|s| - 1].accesses)
  }

  lemma {:induction false} WeightConcat(a: seq<Item>, b: seq<Item>)
    ensures Weight(a + b) == Weight(a) + Weight(b)
  {
    if b == [] {
      assert a + b == a;
    } else {
      WeightConcat(a, b[..|b| - 1]);
      assert (a + b)[..|a + b| - 1] == a + b[..|b| - 1];
    }
  }

  /** The items a collection keeps: all of them, or those that are not marked. */
  function Kept(s: seq<Item>, clear: bool): (r: seq<Item>)
    ensures |r| <= |s|
  {
    if s == [] then []
    else Kept(s[..|s| - 1], clear) + if clear && Marked(s[|s| - 1]) then [] else [s[|s| - 1]]
  }

  function Erased(s: seq<Item>, clear: bool): set<nat> {
    if s == [] then {}
    else Erased(s[..|s| - 1], clear) + if clear && Marked(s[|s| - 1]) then {s[|s| - 1].member} else {}
  }

  lemma {:induction false} KeptConcat(a: seq<Item>, b: seq<Item>, clear: bool)
    ensures Kept(a + b, clear) == Kept(a, clear) + Kept(b, clear)
    ensures Erased(a + b, clear) == Erased(a, clear) + Erased(b, clear)
  {
    if b == [] {
      assert a + b == a;
    } else {
      KeptConcat(a, b[..|b| - 1], clear);
      assert (a + b)[..|a + b| - 1] == a + b[..|b| - 1];
    }
  }

  /** Without clearing nothing is dropped; with clearing exactly the marked items are. */
  lemma {:induction false} KeptItems(s: seq<Item>, clear: bool)
    ensures !clear ==> Kept(s, clear) == s
    ensures clear ==> |Kept(s, clear)| == Unmarked(s)
    ensures forall x :: x in Kept(s, clear) <==> x in s && !(clear && Marked(x))
  {
    if s != [] {
      var m := |s| - 1;
      KeptItems(s[..m], clear);
      assert s == s[..m] + [s[m]];
    }
  }

  // ----- order -----

  ghost predicate SortedWithin(s: seq<Item>, lo: int, hi: int) {
    && (forall i :: 0 <= i < |s| ==> lo <= s[i].score <= hi)
    && forall i, j :: 0 <= i < j < |s| ==> s[i].score <= s[j].score
  }

  lemma {:induction false} KeptSorted(s: seq<Item>, clear: bool, lo: int, hi: int)
    requires SortedWithin(s, lo, hi)
    ensures SortedWithin(Kept(s, clear), lo, hi)
  {
    if s != [] {
      var m := |s| - 1;
      assert SortedWithin(s[..m], lo, s[m].score);
      KeptSorted(s[..m], clear, lo, s[m].score);
      if !(clear && Marked(s[m])) {
        SortedConcat(Kept(s[..m], clear), [s[m]], lo, s[m].score, hi);
      } else {
        KeptSorted(s[..m], clear, lo, hi);
      }
    }
  }

  // ----- validity -----

  /** The score left of branch n. */
  function ScoreBefore(bs: seq<Branch>, n: nat, lo: int): int
    requires n <= |bs|
  {
    if n == 0 then lo else bs[n - 1].rep.score
  }

  /** What the validation demands of a branch right of the score lo. */
  ghost predicate BranchOk(b: Branch, lo: int)
    decreases b
  {
    && lo <= b.rep.score && Passes(b.child, lo, b.rep.score)
    && b.childCount + b.repCount == Unmarked(BranchItems(b))
  }

  /** The bounds, the order and, at every level, the prefix counts of unmarked members are right. */
  ghost predicate Passes(t: Tree, lo: int, hi: int)
    decreases t
  {
    t.Node? ==>
      && t.leftBound == lo && t.rightBound == hi
      && (forall n {:trigger ScoreBefore(t.branches, n, lo)} :: 0 <= n < |t.branches| ==> BranchOk(t.branches[n], ScoreBefore(t.branches, n, lo)))
      && ScoreBefore(t.branches, |t.branches|, lo) <= hi
      && t.lastCount == Unmarked(InOrder(t.last))
      && Passes(t.last, ScoreBefore(t.branches, |t.branches|, lo), hi)
  }

  lemma SortedConcat(a: seq<Item>, b: seq<Item>, lo: int, mid: int, hi: int)
    requires SortedWithin(a, lo, mid) && SortedWithin(b, mid, hi) && lo <= mid <= hi
    ensures SortedWithin(a + b, lo, hi)
  {
  }

  /** A tree that passes holds its items in order and within its bounds. */
  lemma {:induction false} PassesSorted(t: Tree, lo: int, hi: int)
    requires Passes(t, lo, hi) && lo <= hi
    ensures SortedWithin(InOrder(t), lo, hi)
    decreases t
  {
    if t.Node? {
      forall n {:trigger ScoreBefore(t.branches, n, lo)} | 0 <= n < |t.branches|
        ensures SortedWithin(BranchItems(t.branches[n]), ScoreBefore(t.branches, n, lo), t.branches[n].rep.score)
      {
        BranchSorted(t.branches[n], ScoreBefore(t.branches, n, lo));
      }
      FlattenSorted(t.branches, |t.branches|, lo);
      assert t.branches[..|t.branches|] == t.branches;
      var mid := ScoreBefore(t.branches, |t.branches|, lo);
      PassesSorted(t.last, mid, hi);
      SortedConcat(Flatten(t.branches), InOrder(t.last), lo, mid, hi);
    }
  }

  lemma {:induction false} BranchSorted(b: Branch, lo: int)
    requires BranchOk(b, lo)
    ensures SortedWithin(BranchItems(b), lo, b.rep.score)
    decreases b
  {
    PassesSorted(b.child, lo, b.rep.score);
    SortedConcat(InOrder(b.child), [b.rep], lo, b.rep.score, b.rep.score);
  }

  lemma {:induction false} FlattenSorted(bs: seq<Branch>, n: nat, lo: int)
    requires n <= |bs| && forall i {:trigger ScoreBefore(bs, i, lo)} :: 0 <= i < |bs| ==>
      ScoreBefore(bs, i, lo) <= bs[i].rep.score && SortedWithin(BranchItems(bs[i]), ScoreBefore(bs, i, lo), bs[i].rep.score)
    ensures lo <= ScoreBefore(bs, n, lo) && SortedWithin(Flatten(bs[..n]), lo, ScoreBefore(bs, n, lo))
  {
    if n > 0 {
      var m := n - 1;
      FlattenSorted(bs, m, lo);
      SortedConcat(Flatten(bs[..m]), BranchItems(bs[m]), lo, ScoreBefore(bs, m, lo), bs[m].rep.score);
      assert bs[..n][..m] == bs[..m];
    }
  }

  // ----- balance -----

  function CeilDiv(x: nat, k: nat): nat
    requires k > 0
  {
    (x + k - 1) / k
  }

  /** k parts of the rounded-up share cover everything. */
  lemma CeilCovers(x: nat, k: nat)
    requires k > 0
    ensures k * CeilDiv(x, k) >= x
  {
    var q := (x + k - 1) / k;
    assert x + k - 1 < q * k + k;
  }

  ghost predicate LeafShape(t: Tree, leafSize: nat)
    requires t.Node?
  {
    t.capacity == leafSize && |t.branches| <= leafSize && t.last.Nil? && forall b <- t.branches :: b.child.Nil?
  }

  /** Every node knows its size, and is a leaf or splits its accesses evenly: no child has more than the rounded-up
      share. */
  ghost predicate Balanced(t: Tree, d: nat -> nat, leafSize: nat)
    decreases t
  {
    t.Node? ==>
      && t.asize == |InOrder(t)|
      && (LeafShape(t, leafSize)
          || (&& t.capacity == d(Weight(InOrder(t)))
              && 1 <= |t.branches| <= t.capacity
              && Weight(InOrder(t.last)) <= CeilDiv(Weight(InOrder(t)), t.capacity + 1)
              && Balanced(t.last, d, leafSize)
              && forall b <- t.branches ::
                   Weight(InOrder(b.child)) <= CeilDiv(Weight(InOrder(t)), t.capacity + 1) && Balanced(b.child, d, leafSize)))
  }
}
