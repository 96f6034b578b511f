/** The three delimiters, and why each of them splits every range that a rebuild asks it to split. */
module Delimiters {
  import opened Powers
  import opened GsatTrees
  import opened Gsats

  // ----- items carry accesses -----

  /** A member is inserted with one access. */
  function Inserted(score: int, member: nat): Item { Item(score, 1, member) }

  /** Marking and unmarking change the sign. */
  function Toggled(x: Item): Item { x.(accesses := -x.accesses) }

  function AccessedBy(x: Item, value: nat): Item {
    x.(accesses := if Marked(x) then x.accesses - value else x.accesses + value)
  }

  ghost predicate AllAccessed(s: seq<Item>) {
    forall x <- s :: x.accesses != 0
  }

  /** What happens to an item in a node. */
  datatype Use = Mark | Unmark | Access(value: nat)

  function Used(x: Item, uses: seq<Use>): Item {
    if uses == [] then x
    else
      var y := Used(x, uses[..|uses| - 1]);
      match uses[|uses| - 1]
      case Access(value) => AccessedBy(y, value)
      case _ => Toggled(y)
  }

  function TotalValue(uses: seq<Use>): nat {
    if uses == [] then 0
    else TotalValue(uses[..|uses| - 1]) + match uses[|uses| - 1] case Access(value) => value case _ => 0
  }

  /** An item counts the access of its insertion and all later ones, marked or not, so it never counts none. */
  lemma {:induction false} ItemsStayAccessed(score: int, member: nat, uses: seq<Use>)
    ensures Abs(Used(Inserted(score, member), uses).accesses) == 1 + TotalValue(uses)
  {
    if uses != [] { ItemsStayAccessed(score, member, uses[..|uses| - 1]); }
  }

  /** Accessed items weigh at least one each. */
  lemma {:induction false} WeightAtLeast(s: seq<Item>)
    requires AllAccessed(s)
    ensures Weight(s) >= |s|
  {
    if s != [] {
      var m := |s| - 1;
      assert s[m] in s;
      assert forall x <- s[..m] :: x in s;
      WeightAtLeast(s[..m]);
    }
  }

  /** A delimiter that gives a branch to every total beyond the leaf size splits all long ranges of accessed items. */
  lemma AccessedDelimits(s: seq<Item>, d: nat -> nat, leafSize: nat)
    requires AllAccessed(s) && forall n: nat :: n > leafSize ==> d(n) >= 1
    ensures Delimits(s, 0, |s|, d, leafSize)
  {
    forall l: nat, r: nat | l + leafSize < r <= |s| ensures d(RangeWeight(s, l, r)) >= 1 {
      assert forall x <- s[l..r] :: x in s;
      WeightAtLeast(s[l..r]);
    }
  }

  /** So a rebuild may be asked of any tree of accessed items, whether marked ones are dropped or not. */
  lemma RebuildDelimits(t: Tree, clear: bool, d: nat -> nat, leafSize: nat)
    requires AllAccessed(InOrder(t)) && forall n: nat :: n > leafSize ==> d(n) >= 1
    ensures var kept := Kept(InOrder(t), clear); AllAccessed(kept) && Delimits(kept, 0, |kept|, d, leafSize)
  {
    KeptItems(InOrder(t), clear);
    AccessedDelimits(Kept(InOrder(t), clear), d, leafSize);
  }

  // ----- the constant delimiter -----

  function ConstantDelimiter(c: nat): nat -> nat { (_: nat) => c }

  /** It splits any items at all. */
  lemma ConstantDelimits(s: seq<Item>, c: nat, leafSize: nat)
    requires c > 0
    ensures Delimits(s, 0, |s|, ConstantDelimiter(c), leafSize)
  {
  }

  // ----- the logarithmic delimiter -----

  /** The least exponent whose power of two is at least n. */
  ghost predicate IsCeilLog2(e: nat, n: nat) {
    Pow2(e) >= n && (e > 0 ==> Pow2(e - 1) < n)
  }

  function LogFrom(n: nat, e: nat): (r: nat)
    requires e > 0 ==> Pow2(e - 1) < n
    ensures IsCeilLog2(r, n)
    decreases n - Pow2(e)
  {
    if Pow2(e) >= n then e else LogFrom(n, e + 1)
  }

  function LogDelimiter(): nat -> nat { (n: nat) => LogFrom(n, 0) }

  method RunLogDelimiter(totalAccesses: nat) returns (pow: nat)
    ensures pow == LogDelimiter()(totalAccesses) && IsCeilLog2(pow, totalAccesses)
  {
    pow := 0;
    while Pow2(pow) < totalAccesses
      invariant pow > 0 ==> Pow2(pow - 1) < totalAccesses
      invariant LogFrom(totalAccesses, 0) == LogFrom(totalAccesses, pow)
      decreases totalAccesses - Pow2(pow)
    {
      pow := pow + 1;
    }
  }

  /** It gives no branch exactly to totals of zero and one. */
  lemma LogIsZero(n: nat)
    ensures LogDelimiter()(n) == 0 <==> n <= 1
  {
    var e := LogFrom(n, 0);
    assert IsCeilLog2(e, n);
  }

  lemma LogDelimits(s: seq<Item>, leafSize: nat)
    requires AllAccessed(s) && leafSize > 0
    ensures Delimits(s, 0, |s|, LogDelimiter(), leafSize)
  {
    forall n: nat | n > leafSize ensures LogDelimiter()(n) >= 1 { LogIsZero(n); }
    AccessedDelimits(s, LogDelimiter(), leafSize);
  }

  // ----- the square-root delimiter -----

  function FloorSqrt(n: nat): (r: nat)
    ensures r * r <= n < (r + 1) * (r + 1)
  {
    if n == 0 then 0
    else
      var r := FloorSqrt(n - 1);
      if (r + 1) * (r + 1) <= n then r + 1 else r
  }

  function SqrtDelimiter(): nat -> nat { (n: nat) => FloorSqrt(n) }

  /** It gives no branch exactly to a total of zero. */
  lemma SqrtIsZero(n: nat)
    ensures SqrtDelimiter()(n) == 0 <==> n == 0
  {
    var r := FloorSqrt(n);
    assert r * r <= n < (r + 1) * (r + 1);
  }

  lemma SqrtDelimits(s: seq<Item>, leafSize: nat)
    requires AllAccessed(s)
    ensures Delimits(s, 0, |s|, SqrtDelimiter(), leafSize)
  {
    forall n: nat | n > leafSize ensures SqrtDelimiter()(n) >= 1 { SqrtIsZero(n); }
    AccessedDelimits(s, SqrtDelimiter(), leafSize);
  }

  /** With any of the three delimiters a tree of accessed items can be rebuilt, and stays one of accessed items. */
  lemma ShippedDelimiters(t: Tree, clear: bool, c: nat, leafSize: nat)
    requires AllAccessed(InOrder(t)) && c > 0 && leafSize > 0
    ensures var kept := Kept(InOrder(t), clear);
            && AllAccessed(kept)
            && Delimits(kept, 0, |kept|, ConstantDelimiter(c), leafSize)
            && Delimits(kept, 0, |kept|, LogDelimiter(), leafSize)
            && Delimits(kept, 0, |kept|, SqrtDelimiter(), leafSize)
  {
    RebuildDelimits(t, clear, ConstantDelimiter(c), leafSize);
    ConstantDelimits(Kept(InOrder(t), clear), c, leafSize);
    LogDelimits(Kept(InOrder(t), clear), leafSize);
    SqrtDelimits(Kept(InOrder(t), clear), leafSize);
  }
}
