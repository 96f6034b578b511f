/** Rebuilding a subtree of the self-adjusting tree into an ideal one, and validating a tree. */
module Gsats {
  import opened Wrappers
  import opened GsatTrees

  datatype ClearPolicy = ClearNone | ClearRoot | ClearRapid

  /** pac holds the accesses before every index. */
  ghost predicate PrefixAccesses(items: seq<Item>, pac: seq<nat>) {
    |pac| == |items| + 1 && forall i :: 0 <= i <= |items| ==> pac[i] == Weight(items[..i])
  }

  lemma SliceWeight(items: seq<Item>, pac: seq<nat>, l: nat, r: nat)
    requires PrefixAccesses(items, pac) && l <= r <= |items|
    ensures pac[r] as int - pac[l] == Weight(items[l..r])
  {
    WeightConcat(items[..l], items[l..r]);
    assert items[..r] == items[..l] + items[l..r];
  }

  function RangeWeight(items: seq<Item>, l: nat, r: nat): nat
    requires l <= r <= |items|
  {
    Weight(items[l..r])
  }

  /** Every range that is too long for a leaf gets at least one branch; a range without one would be its own
      last child. */
  ghost predicate Delimits(items: seq<Item>, left: nat, right: nat, d: nat -> nat, leafSize: nat)
    requires left <= right <= |items|
  {
    forall l: nat, r: nat {:trigger RangeWeight(items, l, r)} ::
      left <= l && l + leafSize < r <= right ==> d(RangeWeight(items, l, r)) >= 1
  }

  /** What a rebuild owes its caller: content, balance, size, and validity if the items are in order. */
  ghost predicate Ideal(t: Tree, s: seq<Item>, lo: int, hi: int, d: nat -> nat, leafSize: nat) {
    && InOrder(t) == s && Balanced(t, d, leafSize) && (t.Nil? <==> s == [])
    && (t.Node? ==> t.asize == |s| && t.leftBound == lo && t.rightBound == hi)
    && (SortedWithin(s, lo, hi) ==> Passes(t, lo, hi))
  }

  /** The same for a branch: the items s and their last one as the representative. */
  ghost predicate IdealBranch(b: Branch, s: seq<Item>, lo: int, share: nat, d: nat -> nat, leafSize: nat) {
    && BranchItems(b) == s && Balanced(b.child, d, leafSize) && Weight(InOrder(b.child)) <= share
    && (s != [] && SortedWithin(s, lo, b.rep.score) ==> BranchOk(b, lo))
  }

  // ----- a row of branches -----

  ghost predicate IdealBranches(bs: seq<Branch>, s: seq<Item>, lo: int, share: nat, d: nat -> nat, leafSize: nat) {
    && Flatten(bs) == s
    && (forall b <- bs :: Balanced(b.child, d, leafSize) && Weight(InOrder(b.child)) <= share)
    && (SortedWithin(s, lo, ScoreBefore(bs, |bs|, lo)) ==>
          forall n {:trigger ScoreBefore(bs, n, lo)} :: 0 <= n < |bs| ==> BranchOk(bs[n], ScoreBefore(bs, n, lo)))
    && (bs != [] ==> s != [] && s[|s| - 1] == bs[|bs| - 1].rep)
  }

  lemma SortedParts(a: seq<Item>, b: seq<Item>, lo: int, hi: int)
    requires SortedWithin(a + b, lo, hi) && a != [] && b != []
    ensures SortedWithin(a, lo, a[|a| - 1].score) && SortedWithin(b, a[|a| - 1].score, b[|b| - 1].score)
  {
    var s := a + b;
    assert forall i :: 0 <= i < |a| ==> s[i] == a[i];
    assert forall i :: 0 <= i < |b| ==> s[|a| + i] == b[i];
  }

  lemma OneMoreBranch(bs: seq<Branch>, s: seq<Item>, b: Branch, u: seq<Item>, lo: int, share: nat, d: nat -> nat, leafSize: nat)
    requires IdealBranches(bs, s, lo, share, d, leafSize)
    requires IdealBranch(b, u, ScoreBefore(bs, |bs|, lo), share, d, leafSize)
    ensures IdealBranches(bs + [b], s + u, lo, share, d, leafSize)
  {
    var bs' := bs + [b];
    assert bs'[..|bs|] == bs;
    assert u[|u| - 1] == b.rep;
    if SortedWithin(s + u, lo, ScoreBefore(bs', |bs'|, lo)) {
      if bs != [] {
        SortedParts(s, u, lo, b.rep.score);
      } else {
        assert s + u == u;
      }
      forall n {:trigger ScoreBefore(bs', n, lo)} | 0 <= n < |bs'| ensures BranchOk(bs'[n], ScoreBefore(bs', n, lo)) {
        if n < |bs| {
          assert bs'[n] == bs[n] && ScoreBefore(bs', n, lo) == ScoreBefore(bs, n, lo);
        } else {
          assert ScoreBefore(bs', n, lo) == ScoreBefore(bs, |bs|, lo);
        }
      }
    }
  }

  /** Branches that hold the items left .. at-1, `count` of them unmarked. */
  ghost predicate IdealRow(bs: seq<Branch>, count: nat, items: seq<Item>, left: nat, at: nat, lo: int, share: nat,
                           d: nat -> nat, leafSize: nat)
    requires left <= at <= |items|
  {
    IdealBranches(bs, items[left..at], lo, share, d, leafSize) && count == Unmarked(items[left..at])
  }

  lemma OneMoreInRow(bs: seq<Branch>, count: nat, items: seq<Item>, left: nat, at: nat, to: nat, lo: int, share: nat,
                     d: nat -> nat, leafSize: nat, b: Branch, n: nat)
    requires left <= at <= to <= |items| && IdealRow(bs, count, items, left, at, lo, share, d, leafSize)
    requires IdealBranch(b, items[at..to], ScoreBefore(bs, |bs|, lo), share, d, leafSize) && n == Unmarked(items[at..to])
    ensures IdealRow(bs + [b], count + n, items, left, to, lo, share, d, leafSize)
  {
    OneMoreBranch(bs, items[left..at], b, items[at..to], lo, share, d, leafSize);
    Slices(items, left, at, to);
  }

  /** The branches and the last child make an ideal node. */
  lemma IdealNode(t: Tree, s: seq<Item>, u: seq<Item>, lo: int, hi: int, d: nat -> nat, leafSize: nat)
    requires t.Node? && t.branches != [] && |t.branches| <= t.capacity && t.capacity == d(Weight(s + u))
    requires IdealBranches(t.branches, s, lo, CeilDiv(Weight(s + u), t.capacity + 1), d, leafSize)
    requires Ideal(t.last, u, t.branches[|t.branches| - 1].rep.score, hi, d, leafSize)
    requires Weight(u) <= CeilDiv(Weight(s + u), t.capacity + 1)
    requires t.asize == |s + u| && t.leftBound == lo && t.rightBound == hi && t.lastCount == Unmarked(u)
    ensures Ideal(t, s + u, lo, hi, d, leafSize)
  {
    assert InOrder(t) == s + u;
    NodeBalanced(t, CeilDiv(Weight(s + u), t.capacity + 1), d, leafSize);
    if SortedWithin(s + u, lo, hi) {
      LastScore(s, u, lo, hi);
      NodePasses(t, lo, hi);
    }
  }

  lemma NodeBalanced(t: Tree, share: nat, d: nat -> nat, leafSize: nat)
    requires t.Node? && 1 <= |t.branches| <= t.capacity && t.capacity == d(Weight(InOrder(t)))
    requires share == CeilDiv(Weight(InOrder(t)), t.capacity + 1)
    requires forall b <- t.branches :: Balanced(b.child, d, leafSize) && Weight(InOrder(b.child)) <= share
    requires Balanced(t.last, d, leafSize) && Weight(InOrder(t.last)) <= share && t.asize == |InOrder(t)|
    ensures Balanced(t, d, leafSize)
  {
  }

  lemma NodePasses(t: Tree, lo: int, hi: int)
    requires t.Node? && t.leftBound == lo && t.rightBound == hi && t.lastCount == Unmarked(InOrder(t.last))
    requires forall n {:trigger ScoreBefore(t.branches, n, lo)} :: 0 <= n < |t.branches| ==> BranchOk(t.branches[n], ScoreBefore(t.branches, n, lo))
    requires ScoreBefore(t.branches, |t.branches|, lo) <= hi && Passes(t.last, ScoreBefore(t.branches, |t.branches|, lo), hi)
    ensures Passes(t, lo, hi)
  {
  }

  lemma LastScore(s: seq<Item>, u: seq<Item>, lo: int, hi: int)
    requires SortedWithin(s + u, lo, hi) && s != []
    ensures SortedWithin(s, lo, s[|s| - 1].score) && SortedWithin(u, s[|s| - 1].score, hi) && s[|s| - 1].score <= hi
  {
    assert forall i :: 0 <= i < |s| ==> (s + u)[i] == s[i];
    assert forall i :: 0 <= i < |u| ==> (s + u)[|s| + i] == u[i];
  }

  // ----- leaves -----

  ghost predicate LeafBranches(bs: seq<Branch>, s: seq<Item>) {
    |bs| == |s| && forall i {:trigger bs[i]} :: 0 <= i < |s| ==>
      bs[i].rep == s[i] && bs[i].child == Nil && bs[i].childCount == 0 && bs[i].repCount == if Marked(s[i]) then 0 else 1
  }

  lemma {:induction false} LeafItems(bs: seq<Branch>, s: seq<Item>)
    requires LeafBranches(bs, s)
    ensures Flatten(bs) == s
  {
    if s != [] {
      var m := |s| - 1;
      LeafItems(bs[..m], s[..m]);
      assert BranchItems(bs[m]) == [s[m]];
      assert s == s[..m] + [s[m]];
    }
  }

  lemma IdealLeaf(t: Tree, s: seq<Item>, lo: int, hi: int, d: nat -> nat, leafSize: nat)
    requires t.Node? && LeafBranches(t.branches, s) && 0 < |s| <= leafSize && t.last == Nil && t.lastCount == 0
    requires t.asize == |s| && t.capacity == leafSize && t.leftBound == lo && t.rightBound == hi
    ensures Ideal(t, s, lo, hi, d, leafSize)
  {
    LeafItems(t.branches, s);
    assert InOrder(t) == s;
    LeafBalanced(t, s, d, leafSize);
    if SortedWithin(s, lo, hi) {
      forall n {:trigger ScoreBefore(t.branches, n, lo)} | 0 <= n < |t.branches| ensures BranchOk(t.branches[n], ScoreBefore(t.branches, n, lo)) {
        LeafBranchOk(t.branches, s, n, lo, hi);
      }
      NodePasses(t, lo, hi);
    }
  }

  lemma LeafBalanced(t: Tree, s: seq<Item>, d: nat -> nat, leafSize: nat)
    requires t.Node? && LeafBranches(t.branches, s) && |s| <= leafSize && t.last == Nil
    requires t.capacity == leafSize && t.asize == |InOrder(t)|
    ensures Balanced(t, d, leafSize)
  {
    assert LeafShape(t, leafSize);
  }

  lemma LeafBranchOk(bs: seq<Branch>, s: seq<Item>, n: nat, lo: int, hi: int)
    requires LeafBranches(bs, s) && n < |s| && SortedWithin(s, lo, hi)
    ensures BranchOk(bs[n], ScoreBefore(bs, n, lo))
  {
    if n > 0 { assert bs[n - 1].rep == s[n - 1]; }
    BranchCount(bs[n]);
  }

  lemma BranchCount(b: Branch)
    ensures Unmarked(BranchItems(b)) == Unmarked(InOrder(b.child)) + if Marked(b.rep) then 0 else 1
  {
    assert BranchItems(b)[..|BranchItems(b)| - 1] == InOrder(b.child);
  }

  // ----- shares -----

  lemma Slices(items: seq<Item>, left: nat, at: nat, right: nat)
    requires left <= at <= right <= |items|
    ensures items[left..at] + items[at..right] == items[left..right]
    ensures Unmarked(items[left..right]) == Unmarked(items[left..at]) + Unmarked(items[at..right])
  {
    assert items[left..at] + items[at..right] == items[left..right];
    UnmarkedConcat(items[left..at], items[at..right]);
  }

  lemma NodeOfSlices(t: Tree, n: nat, items: seq<Item>, left: nat, at: nat, right: nat, lo: int, hi: int, share: nat,
                     d: nat -> nat, leafSize: nat)
    requires left <= at <= right <= |items| && t.Node? && t.branches != [] && |t.branches| <= t.capacity
    requires t.capacity == d(Weight(items[left..right])) && share == CeilDiv(Weight(items[left..right]), t.capacity + 1)
    requires IdealRow(t.branches, n, items, left, at, lo, share, d, leafSize) && Weight(items[at..right]) <= share
    requires Ideal(t.last, items[at..right], t.branches[|t.branches| - 1].rep.score, hi, d, leafSize)
    requires t.asize == right - left && t.leftBound == lo && t.rightBound == hi && t.lastCount == Unmarked(items[at..right])
    ensures Ideal(t, items[left..right], lo, hi, d, leafSize) && n + t.lastCount == Unmarked(items[left..right])
  {
    Slices(items, left, at, right);
    IdealNode(t, items[left..at], items[at..right], lo, hi, d, leafSize);
  }

  lemma OneMoreShare(i: nat, share: nat)
    requires i > 0
    ensures i * share == (i - 1) * share + share
  {
  }

  lemma LastShare(items: seq<Item>, pac: seq<nat>, left: nat, at: nat, right: nat, capacity: nat, share: nat)
    requires PrefixAccesses(items, pac) && left <= at <= right <= |items|
    requires share == CeilDiv(Weight(items[left..right]), capacity + 1)
    requires at < right ==> pac[at] as int - pac[left] >= capacity * share
    ensures Weight(items[at..right]) <= share
  {
    SliceWeight(items, pac, left, right);
    SliceWeight(items, pac, left, at);
    SliceWeight(items, pac, at, right);
    if at < right { ShareLeft(pac[right] - pac[left], pac[at] - pac[left], capacity); }
  }

  /** Once every branch but the last child has taken its share, at most a share is left. */
  lemma ShareLeft(total: nat, taken: nat, capacity: nat)
    requires taken >= capacity * CeilDiv(total, capacity + 1)
    ensures total - taken <= CeilDiv(total, capacity + 1)
  {
    var q := CeilDiv(total, capacity + 1);
    CeilCovers(total, capacity + 1);
    assert (capacity + 1) * q == capacity * q + q;
  }

  class Gsat {
    const d: nat -> nat
    const leafSize: nat
    const leftBound: int
    const rightBound: int
    const clearPolicy: ClearPolicy
    var members: set<nat>

    ghost predicate Valid() {
      leafSize > 0 && leftBound < rightBound
    }

    constructor (delimiter: nat -> nat, left: int, right: int, leaf: nat, policy: ClearPolicy)
      requires leaf > 0 && left < right
      ensures Valid() && members == {}
      ensures d == delimiter && leftBound == left && rightBound == right && leafSize == leaf && clearPolicy == policy
    {
      d, leftBound, rightBound, leafSize, clearPolicy := delimiter, left, right, leaf, policy;
      members := {};
    }

    /** The binary search for the next representative: the child before it stays below a share, and together
        with it a share is reached, unless the range ends first. */
    static method FindSplit(pac: seq<nat>, left: nat, right: nat, share: nat) returns (from: nat, to: nat)
      requires left < right < |pac|
      ensures left <= from < to == from + 1 <= right
      ensures from == left || pac[from] as int - pac[left] < share
      ensures to == right || pac[to] as int - pac[left] >= share
    {
      from, to := left, right;
      while to - from > 1
        invariant left <= from < to <= right
        invariant from == left || pac[from] as int - pac[left] < share
        invariant to == right || pac[to] as int - pac[left] >= share
      {
        var m := (from + to) / 2;
        if pac[m] as int - pac[left] < share { from := m; } else { to := m; }
      }
    }

    /** Builds an ideal tree of the items left .. right-1 and counts the unmarked ones. */
    method BuildIdealTree(items: seq<Item>, pac: seq<nat>, left: nat, right: nat, lo: int, hi: int)
      returns (t: Tree, count: nat)
      requires Valid() && PrefixAccesses(items, pac) && left <= right <= |items| && Delimits(items, left, right, d, leafSize)
      ensures Ideal(t, items[left..right], lo, hi, d, leafSize) && count == Unmarked(items[left..right])
      decreases right - left, 6
    {
      var size := right - left;
      if size <= 0 { return Nil, 0; }
      if size <= leafSize {
        t, count := BuildLeaf(items[left..right], lo, hi);
      } else {
        t, count := BuildNode(items, pac, left, right, lo, hi);
      }
    }

    method BuildNode(items: seq<Item>, pac: seq<nat>, left: nat, right: nat, lo: int, hi: int) returns (t: Tree, count: nat)
      requires Valid() && PrefixAccesses(items, pac) && left + leafSize < right <= |items|
      requires Delimits(items, left, right, d, leafSize)
      ensures Ideal(t, items[left..right], lo, hi, d, leafSize) && count == Unmarked(items[left..right])
      decreases right - left, 5
    {
      SliceWeight(items, pac, left, right);
      var totalAccesses: nat := pac[right] - pac[left];
      assert totalAccesses == RangeWeight(items, left, right);
      var capacity := d(totalAccesses);
      var share := CeilDiv(totalAccesses, capacity + 1);
      var branches, at, n := BuildBranches(items, pac, left, right, lo, capacity, share);
      LastShare(items, pac, left, at, right, capacity, share);
      var bound := branches[|branches| - 1].rep.score;
      var last, lastCount := BuildIdealTree(items, pac, at, right, bound, hi);
      t := Node(lo, hi, right - left, capacity, branches, last, lastCount);
      NodeOfSlices(t, n, items, left, at, right, lo, hi, share, d, leafSize);
      count := n + lastCount;
    }

    /** Up to `capacity` branches, each but the last of the range taking at least a share of the accesses. */
    method BuildBranches(items: seq<Item>, pac: seq<nat>, left: nat, right: nat, lo: int, capacity: nat, share: nat)
      returns (branches: seq<Branch>, at: nat, count: nat)
      requires Valid() && PrefixAccesses(items, pac) && left < right <= |items| && capacity > 0
      requires Delimits(items, left, right, d, leafSize)
      ensures left < at <= right && 1 <= |branches| <= capacity
      ensures IdealRow(branches, count, items, left, at, lo, share, d, leafSize)
      ensures at < right ==> pac[at] as int - pac[left] >= capacity * share
      decreases right - left, 4
    {
      var bound, i := lo, 0;
      branches, at, count := [], left, 0;
      while i < capacity
        invariant 0 <= i <= capacity && |branches| == i && left <= at < right && (i == 0 <==> at == left)
        invariant bound == ScoreBefore(branches, i, lo)
        invariant IdealRow(branches, count, items, left, at, lo, share, d, leafSize)
        invariant pac[at] as int - pac[left] >= i * share
      {
        branches, at, count, bound := NextBranch(branches, at, count, bound, items, pac, left, right, lo, share);
        i := i + 1;
        if at == right { break; }
        OneMoreShare(i, share);
      }
    }

    /** One round of the loop: a branch for the items at .. from, where `from` is found by the binary search. */
    method NextBranch(bs: seq<Branch>, at: nat, n: nat, bound: int, items: seq<Item>, pac: seq<nat>, left: nat, right: nat,
                      lo: int, share: nat)
      returns (branches: seq<Branch>, to: nat, count: nat, newBound: int)
      requires Valid() && PrefixAccesses(items, pac) && left <= at < right <= |items|
      requires Delimits(items, at, right, d, leafSize)
      requires bound == ScoreBefore(bs, |bs|, lo) && IdealRow(bs, n, items, left, at, lo, share, d, leafSize)
      ensures at < to <= right && |branches| == |bs| + 1 && newBound == ScoreBefore(branches, |branches|, lo)
      ensures IdealRow(branches, count, items, left, to, lo, share, d, leafSize)
      ensures to == right || pac[to] as int - pac[at] >= share
      decreases right - at, 3
    {
      var from;
      from, to := FindSplit(pac, at, right, share);
      var b, m := BuildBranch(items, pac, at, from, bound, share);
      OneMoreInRow(bs, n, items, left, at, to, lo, share, d, leafSize, b, m);
      branches := bs + [b];
      count := n + m;
      newBound := items[from].score;
    }

    /** The child of the items left .. from-1, with item `from` as its representative. */
    method BuildBranch(items: seq<Item>, pac: seq<nat>, left: nat, from: nat, bound: int, share: nat)
      returns (b: Branch, count: nat)
      requires Valid() && PrefixAccesses(items, pac) && left <= from < |items| && Delimits(items, left, from, d, leafSize)
      requires from == left || pac[from] as int - pac[left] < share
      ensures IdealBranch(b, items[left..from + 1], bound, share, d, leafSize) && b.rep == items[from]
      ensures count == Unmarked(items[left..from + 1])
      decreases from - left, 7
    {
      var child, childCount := BuildIdealTree(items, pac, left, from, bound, items[from].score);
      var repCount := if Marked(items[from]) then 0 else 1;
      b := Branch(child, childCount, items[from], repCount);
      count := childCount + repCount;
      BranchOfSlice(b, items, pac, left, from, bound, share);
    }

    lemma BranchOfSlice(b: Branch, items: seq<Item>, pac: seq<nat>, left: nat, from: nat, bound: int, share: nat)
      requires PrefixAccesses(items, pac) && left <= from < |items| && b.rep == items[from]
      requires from == left || pac[from] as int - pac[left] < share
      requires Ideal(b.child, items[left..from], bound, items[from].score, d, leafSize)
      requires b.childCount == Unmarked(items[left..from]) && b.repCount == (if Marked(items[from]) then 0 else 1)
      ensures IdealBranch(b, items[left..from + 1], bound, share, d, leafSize)
      ensures Unmarked(items[left..from + 1]) == b.childCount + b.repCount
    {
      SliceWeight(items, pac, left, from);
      NewBranch(b, items[left..from], items[left..from + 1], bound, share, d, leafSize);
    }

    method BuildLeaf(s: seq<Item>, lo: int, hi: int) returns (t: Tree, count: nat)
      requires 0 < |s| <= leafSize
      ensures Ideal(t, s, lo, hi, d, leafSize) && count == Unmarked(s)
    {
      var branches := [];
      count := 0;
      var i := 0;
      while i < |s|
        invariant 0 <= i <= |s| && LeafBranches(branches, s[..i]) && count == Unmarked(s[..i])
      {
        var repCount := if Marked(s[i]) then 0 else 1;
        branches := branches + [Branch(Nil, 0, s[i], repCount)];
        assert s[..i + 1][..i] == s[..i];
        count := count + repCount;
        i := i + 1;
      }
      assert s[..i] == s;
      t := Node(lo, hi, |s|, leafSize, branches, Nil, 0);
      IdealLeaf(t, s, lo, hi, d, leafSize);
    }

    // ----- rebuilding -----

    /** Writes the items to keep behind those written already and erases the others from the members. */
    method CollectAndClear(t: Tree, items: array<Item>, at: nat, clear: bool, ghost before: seq<Item>) returns (end: nat)
      requires at + |InOrder(t)| <= items.Length && items[..at] == before
      modifies items, `members
      ensures at <= end <= at + |InOrder(t)| && items[..end] == before + Kept(InOrder(t), clear)
      ensures members == old(members) - Erased(InOrder(t), clear)
      decreases t, 1
    {
      end := at;
      if t.Nil? { return; }
      end := CollectBranches(t.branches, items, at, clear, before);
      CollectedLast(t, clear, before);
      end := CollectAndClear(t.last, items, end, clear, before + Kept(Flatten(t.branches), clear));
    }

    method CollectBranches(bs: seq<Branch>, items: array<Item>, at: nat, clear: bool, ghost before: seq<Item>)
      returns (end: nat)
      requires at + |Flatten(bs)| <= items.Length && items[..at] == before
      modifies items, `members
      ensures at <= end <= at + |Flatten(bs)| && items[..end] == before + Kept(Flatten(bs), clear)
      ensures members == old(members) - Erased(Flatten(bs), clear)
      decreases bs, 0
    {
      end := at;
      var i := 0;
      while i < |bs|
        invariant 0 <= i <= |bs| && at <= end <= at + |Flatten(bs[..i])| <= at + |Flatten(bs)|
        invariant items[..end] == before + Kept(Flatten(bs[..i]), clear)
        invariant members == old(members) - Erased(Flatten(bs[..i]), clear)
      {
        end := CollectNext(bs, i, items, at, end, clear, before);
        i := i + 1;
      }
      assert bs[..i] == bs;
    }

    /** One round of the loop. */
    method CollectNext(bs: seq<Branch>, i: nat, items: array<Item>, at: nat, from: nat, clear: bool, ghost before: seq<Item>)
      returns (end: nat)
      requires i < |bs| && at <= from <= at + |Flatten(bs[..i])| && from <= items.Length && at + |Flatten(bs)| <= items.Length
      requires items[..from] == before + Kept(Flatten(bs[..i]), clear)
      modifies items, `members
      ensures at <= end <= at + |Flatten(bs[..i + 1])| <= at + |Flatten(bs)|
      ensures items[..end] == before + Kept(Flatten(bs[..i + 1]), clear)
      ensures forall m: set<nat> :: old(members) == m - Erased(Flatten(bs[..i]), clear) ==>
                members == m - Erased(Flatten(bs[..i + 1]), clear)
      decreases bs[i], 1
    {
      CollectedMore(bs, i, clear, before, before + Kept(Flatten(bs[..i]), clear));
      end := CollectBranch(bs[i], items, from, clear, before + Kept(Flatten(bs[..i]), clear));
    }

    /** One more branch. */
    static lemma CollectedMore(bs: seq<Branch>, i: nat, clear: bool, before: seq<Item>, written: seq<Item>)
      requires i < |bs| && written == before + Kept(Flatten(bs[..i]), clear)
      ensures |Flatten(bs[..i])| + |BranchItems(bs[i])| == |Flatten(bs[..i + 1])| <= |Flatten(bs)|
      ensures written + Kept(BranchItems(bs[i]), clear) == before + Kept(Flatten(bs[..i + 1]), clear)
      ensures Erased(Flatten(bs[..i + 1]), clear) == Erased(Flatten(bs[..i]), clear) + Erased(BranchItems(bs[i]), clear)
    {
      FlattenStep(bs, i, clear);
    }

    /** The last child after the branches. */
    static lemma CollectedLast(t: Tree, clear: bool, before: seq<Item>)
      requires t.Node?
      ensures |Flatten(t.branches)| + |InOrder(t.last)| == |InOrder(t)|
      ensures before + Kept(Flatten(t.branches), clear) + Kept(InOrder(t.last), clear) == before + Kept(InOrder(t), clear)
      ensures Erased(InOrder(t), clear) == Erased(Flatten(t.branches), clear) + Erased(InOrder(t.last), clear)
    {
      KeptConcat(Flatten(t.branches), InOrder(t.last), clear);
    }

    method CollectBranch(b: Branch, items: array<Item>, at: nat, clear: bool, ghost before: seq<Item>) returns (end: nat)
      requires at + |BranchItems(b)| <= items.Length && items[..at] == before
      modifies items, `members
      ensures at <= end <= at + |BranchItems(b)| && items[..end] == before + Kept(BranchItems(b), clear)
      ensures members == old(members) - Erased(BranchItems(b), clear)
      decreases b, 0
    {
      end := CollectAndClear(b.child, items, at, clear, before);
      assert BranchItems(b)[..|BranchItems(b)| - 1] == InOrder(b.child);
      if clear && Marked(b.rep) {
        members := members - {b.rep.member};
      } else {
        items[end] := b.rep;
        end := end + 1;
      }
    }

    static lemma FlattenStep(bs: seq<Branch>, i: nat, clear: bool)
      requires i < |bs|
      ensures |Flatten(bs[..i])| + |BranchItems(bs[i])| == |Flatten(bs[..i + 1])| <= |Flatten(bs)|
      ensures Kept(Flatten(bs[..i + 1]), clear) == Kept(Flatten(bs[..i]), clear) + Kept(BranchItems(bs[i]), clear)
      ensures Erased(Flatten(bs[..i + 1]), clear) == Erased(Flatten(bs[..i]), clear) + Erased(BranchItems(bs[i]), clear)
    {
      KeptConcat(Flatten(bs[..i]), BranchItems(bs[i]), clear);
      FlattenGrows(bs, i + 1, |bs|);
      assert bs[..|bs|] == bs;
      assert bs[..i + 1][..i] == bs[..i];
    }

    static lemma {:induction false} FlattenGrows(bs: seq<Branch>, m: nat, n: nat)
      requires m <= n <= |bs|
      ensures |Flatten(bs[..m])| <= |Flatten(bs[..n])|
    {
      if m < n {
        FlattenGrows(bs, m, n - 1);
        assert bs[..n][..n - 1] == bs[..n - 1];
      }
    }

    predicate Clears(isRoot: bool) {
      clearPolicy.ClearRapid? || (clearPolicy.ClearRoot? && isRoot)
    }

    /** Replaces a node by an ideal tree of what it holds, without the marked items if the policy says so. */
    method RebuildTree(t: Tree, isRoot: bool) returns (result: Tree)
      requires Valid() && t.Node? && |InOrder(t)| <= t.asize
      requires var kept := Kept(InOrder(t), Clears(isRoot)); Delimits(kept, 0, |kept|, d, leafSize)
      requires isRoot ==> t.leftBound == leftBound && t.rightBound == rightBound
      modifies `members
      ensures var clear := Clears(isRoot);
              && members == old(members) - Erased(InOrder(t), clear)
              && InOrder(result) == Kept(InOrder(t), clear)
      ensures Balanced(result, d, leafSize)
      ensures result.Node? ==>
        result.asize == |InOrder(result)| && result.leftBound == t.leftBound && result.rightBound == t.rightBound
      ensures result.Nil? <==> InOrder(result) == [] && !isRoot
      ensures InOrder(result) == [] && isRoot ==> result == Node(leftBound, rightBound, 0, leafSize, [], Nil, 0)
      ensures t.leftBound <= t.rightBound && Passes(t, t.leftBound, t.rightBound) ==>
        Passes(result, t.leftBound, t.rightBound)
    {
      var items := new Item[t.asize](_ => Item(0, 0, 0));
      var clear := Clears(isRoot);
      var at := CollectAndClear(t, items, 0, clear, []);
      var collected := items[..at];
      assert collected == Kept(InOrder(t), clear);
      var pac := Prefixes(collected);
      var count;
      result, count := BuildIdealTree(collected, pac, 0, at, t.leftBound, t.rightBound);
      assert collected[0..at] == collected;
      if t.leftBound <= t.rightBound && Passes(t, t.leftBound, t.rightBound) {
        PassesSorted(t, t.leftBound, t.rightBound);
        KeptSorted(InOrder(t), clear, t.leftBound, t.rightBound);
      }
      if result.Nil? && isRoot {
        result := Node(leftBound, rightBound, 0, leafSize, [], Nil, 0);
      }
    }

    method Prefixes(items: seq<Item>) returns (pac: seq<nat>)
      ensures PrefixAccesses(items, pac)
    {
      pac := [0];
      var index := 0;
      while index < |items|
        invariant 0 <= index <= |items| && |pac| == index + 1
        invariant forall i :: 0 <= i <= index ==> pac[i] == Weight(items[..i])
      {
        assert items[..index + 1][..index] == items[..index];
        pac := pac + [pac[index] + Abs(items[index].accesses)];
        index := index + 1;
      }
    }
  }

  lemma NewBranch(b: Branch, s: seq<Item>, u: seq<Item>, lo: int, share: nat, d: nat -> nat, leafSize: nat)
    requires u == s + [b.rep] && Ideal(b.child, s, lo, b.rep.score, d, leafSize)
    requires b.childCount == Unmarked(s) && b.repCount == (if Marked(b.rep) then 0 else 1)
    requires s == [] || Weight(s) <= share
    ensures IdealBranch(b, u, lo, share, d, leafSize) && Unmarked(u) == b.childCount + b.repCount
  {
    assert u[..|s|] == s;
    if SortedWithin(u, lo, b.rep.score) {
      assert forall i :: 0 <= i < |s| ==> u[i] == s[i];
      assert lo <= u[|s|].score;
    }
  }

  // ----- validation -----

  /** The counts of a node: children at even positions, representatives at odd ones. */
  function Counts(bs: seq<Branch>): seq<nat> {
    if bs == [] then [] else Counts(bs[..|bs| - 1]) + [bs[|bs| - 1].childCount, bs[|bs| - 1].repCount]
  }

  function SumFirst(counts: seq<nat>, end: nat): nat
    requires end <= |counts|
  {
    if end == 0 then 0 else SumFirst(counts, end - 1) + counts[end - 1]
  }

  function PrefixCount(t: Tree, end: nat): nat
    requires t.Node?
  {
    var counts := Counts(t.branches) + [t.lastCount];
    if end <= |counts| then SumFirst(counts, end) else 0
  }

  ghost predicate BranchesOk(bs: seq<Branch>, n: nat, lo: int)
    requires n <= |bs|
  {
    forall j {:trigger ScoreBefore(bs, j, lo)} :: 0 <= j < n ==> BranchOk(bs[j], ScoreBefore(bs, j, lo))
  }

  lemma OneMoreOk(bs: seq<Branch>, i: nat, lo: int)
    requires i < |bs| && BranchesOk(bs, i, lo) && BranchOk(bs[i], ScoreBefore(bs, i, lo))
    ensures BranchesOk(bs, i + 1, lo)
  {
  }

  /** The validation, None for a check that fails; it accepts exactly the trees that pass. */
  method Validate(t: Tree, lo: int, hi: int) returns (count: Option<nat>)
    ensures count == if Passes(t, lo, hi) then Some(Unmarked(InOrder(t))) else None
    decreases t, 1
  {
    if t.Nil? { return Some(0); }
    if t.leftBound != lo || t.rightBound != hi { return None; }
    var n := ValidateBranches(t, lo);
    if n.None? { return None; }
    var i := |t.branches|;
    UnmarkedConcat(Flatten(t.branches), InOrder(t.last));
    CountsEnd(t);
    var leftScore := if i == 0 then lo else t.branches[i - 1].rep.score;
    if leftScore > hi { return None; }
    var c := Validate(t.last, leftScore, hi);
    if c.None? || PrefixCount(t, 2 * i + 1) != n.value + c.value { return None; }
    count := Some(n.value + c.value);
  }

  method ValidateBranches(t: Tree, lo: int) returns (count: Option<nat>)
    requires t.Node?
    ensures count.Some? <==> BranchesOk(t.branches, |t.branches|, lo)
    ensures count.Some? ==> count.value == Unmarked(Flatten(t.branches)) == PrefixCount(t, 2 * |t.branches|)
    decreases t, 0
  {
    var n := 0;
    var i := 0;
    while i < |t.branches|
      invariant 0 <= i <= |t.branches| && BranchesOk(t.branches, i, lo)
      invariant n == PrefixCount(t, 2 * i)
    {
      var c := ValidateNext(t, lo, i, n);
      if c.None? { return None; }
      OneMoreOk(t.branches, i, lo);
      n := c.value;
      i := i + 1;
    }
    CountsAgree(t, i, lo);
    assert t.branches[..i] == t.branches;
    count := Some(n);
  }

  /** The prefix counts of branches that are right count the unmarked items in them. */
  lemma {:induction false} CountsAgree(t: Tree, i: nat, lo: int)
    requires t.Node? && i <= |t.branches| && BranchesOk(t.branches, i, lo)
    ensures PrefixCount(t, 2 * i) == Unmarked(Flatten(t.branches[..i]))
  {
    if i > 0 {
      CountsAgree(t, i - 1, lo);
      CountsGrow(t, i - 1);
      UnmarkedGrows(t.branches, i - 1);
      assert BranchOk(t.branches[i - 1], ScoreBefore(t.branches, i - 1, lo));
    }
  }

  /** One round of the loop: branch i and the prefix count up to its representative. */
  method ValidateNext(t: Tree, lo: int, i: nat, n: nat) returns (count: Option<nat>)
    requires t.Node? && i < |t.branches| && n == PrefixCount(t, 2 * i)
    ensures count.Some? <==> BranchOk(t.branches[i], ScoreBefore(t.branches, i, lo))
    ensures count.Some? ==> count.value == PrefixCount(t, 2 * (i + 1))
    decreases t.branches[i], 3
  {
    var leftScore := if i == 0 then lo else t.branches[i - 1].rep.score;
    var c := ValidateBranch(t.branches[i], leftScore);
    var upTo := PrefixCount(t, 2 * (i + 1));
    CountsGrow(t, i);
    count := NextCount(t.branches[i], c, n, upTo);
  }

  /** The comparison of the counts. */
  function NextCount(b: Branch, c: Option<nat>, n: nat, upTo: nat): (count: Option<nat>)
    requires upTo == n + b.childCount + b.repCount
    ensures count.Some? <==> c == Some(b.childCount + b.repCount)
    ensures count.Some? ==> count.value == upTo
  {
    if c.None? || upTo != n + c.value then None else Some(n + c.value)
  }

  /** Up to a branch, the counts of a node are those of the branches before it. */
  lemma {:induction false} CountsBefore(bs: seq<Branch>, i: nat)
    requires i <= |bs|
    ensures |Counts(bs)| == 2 * |bs| && Counts(bs)[..2 * i] == Counts(bs[..i])
    decreases |bs|
  {
    if i == |bs| {
      assert bs[..i] == bs;
      if i > 0 { CountsBefore(bs[..i - 1], i - 1); }
    } else {
      CountsBefore(bs[..|bs| - 1], i);
      assert bs[..|bs| - 1][..i] == bs[..i];
    }
  }

  lemma CountsGrow(t: Tree, i: nat)
    requires t.Node? && i < |t.branches|
    ensures PrefixCount(t, 2 * (i + 1)) == PrefixCount(t, 2 * i) + t.branches[i].childCount + t.branches[i].repCount
  {
    var counts := Counts(t.branches) + [t.lastCount];
    CountsBefore(t.branches, i);
    CountsBefore(t.branches, i + 1);
    var upTo := counts[..2 * i + 2];
    assert upTo == Counts(t.branches[..i + 1]);
    assert t.branches[..i + 1][..i] == t.branches[..i];
    CountsBefore(t.branches[..i], i);
    assert upTo[2 * i] == t.branches[i].childCount && upTo[2 * i + 1] == t.branches[i].repCount;
    assert counts[2 * i] == upTo[2 * i] && counts[2 * i + 1] == upTo[2 * i + 1];
    assert SumFirst(counts, 2 * i + 2) == SumFirst(counts, 2 * i + 1) + counts[2 * i + 1];
    assert SumFirst(counts, 2 * i + 1) == SumFirst(counts, 2 * i) + counts[2 * i];
  }

  lemma CountsEnd(t: Tree)
    requires t.Node?
    ensures PrefixCount(t, 2 * |t.branches| + 1) == PrefixCount(t, 2 * |t.branches|) + t.lastCount
  {
    CountsBefore(t.branches, 0);
  }

  lemma UnmarkedGrows(bs: seq<Branch>, i: nat)
    requires i < |bs|
    ensures Unmarked(Flatten(bs[..i + 1])) == Unmarked(Flatten(bs[..i])) + Unmarked(BranchItems(bs[i]))
  {
    UnmarkedConcat(Flatten(bs[..i]), BranchItems(bs[i]));
    assert bs[..i + 1][..i] == bs[..i];
  }

  /** The checks of one branch but for its count. */
  method ValidateBranch(b: Branch, lo: int) returns (count: Option<nat>)
    ensures BranchOk(b, lo) <==> count == Some(b.childCount + b.repCount)
    ensures count.Some? ==> count.value == Unmarked(BranchItems(b))
    decreases b, 2
  {
    if lo > b.rep.score { return None; }
    var c := Validate(b.child, lo, b.rep.score);
    BranchCount(b);
    if c.None? { return None; }
    return Some(c.value + if Marked(b.rep) then 0 else 1);
  }
}
