/**
 Cutting a row of blocks into consecutive, non-empty parts, and the cheapest way to do it.

 A cut vector for k parts of r blocks is 0 = c[0] < c[1] < ... < c[k] = r; part i is the blocks
 c[i] .. c[i+1]-1.  The price of a vector is the sum of the prices of its parts.
 */
module Cuts {
  import opened Wrappers

  type Price = (nat, nat) -> real

  ghost predicate ValidCuts(c: seq<nat>, k: nat, r: nat) {
    && |c| == k + 1 && c[0] == 0 && c[k] == r
    && forall i, j :: 0 <= i < j <= k ==> c[i] < c[j]
  }

  // ----- which part a block belongs to -----

  /** How many of the cuts c[1], ..., c[n-1] lie at or below b. */
  function CutsUpTo(c: seq<nat>, n: nat, b: nat): (m: nat)
    requires n <= |c|
  {
    if n <= 1 then 0 else CutsUpTo(c, n - 1, b) + if c[n - 1] <= b then 1 else 0
  }

  function PartOf(c: seq<nat>, b: nat): nat
    requires c != []
  {
    CutsUpTo(c, |c| - 1, b)
  }

  lemma {:induction false} CutsUpToBounds(c: seq<nat>, k: nat, r: nat, n: nat, b: nat)
    requires ValidCuts(c, k, r) && 1 <= n <= k
    ensures CutsUpTo(c, n, b) < n
    ensures c[CutsUpTo(c, n, b)] <= b
    ensures CutsUpTo(c, n, b) + 1 < n ==> b < c[CutsUpTo(c, n, b) + 1]
  {
    if n > 1 { CutsUpToBounds(c, k, r, n - 1, b); }
  }

  /** A block is in exactly one part, and PartOf is its number. */
  lemma PartOfBlock(c: seq<nat>, k: nat, r: nat, b: nat, i: nat)
    requires ValidCuts(c, k, r) && b < r && i < k
    ensures PartOf(c, b) < k
    ensures c[i] <= b < c[i + 1] <==> i == PartOf(c, b)
  {
    CutsUpToBounds(c, k, r, k, b);
    var p := PartOf(c, b);
    if i < p { assert c[i + 1] <= c[p]; }
    if p < i { assert c[p + 1] <= c[i]; }
  }

  lemma {:induction false} CutsUpToMonotone(c: seq<nat>, n: nat, b: nat, b': nat)
    requires n <= |c| && b <= b'
    ensures CutsUpTo(c, n, b) <= CutsUpTo(c, n, b')
  {
    if n > 1 { CutsUpToMonotone(c, n - 1, b, b'); }
  }

  // ----- prices -----

  function PriceOf(c: seq<nat>, w: Price): real {
    if |c| <= 1 then 0.0 else PriceOf(c[..|c| - 1], w) + w(c[|c| - 2], c[|c| - 1])
  }

  function PriceFrom(c: seq<nat>, w: Price, i: nat): real
    decreases |c| - i
  {
    if i + 1 >= |c| then 0.0 else w(c[i], c[i + 1]) + PriceFrom(c, w, i + 1)
  }

  lemma {:induction false} PriceSplits(c: seq<nat>, w: Price, i: nat)
    requires i < |c|
    ensures PriceOf(c, w) == PriceOf(c[..i + 1], w) + PriceFrom(c, w, i)
    decreases |c| - i
  {
    if i + 1 == |c| {
      assert c[..i + 1] == c;
    } else {
      PriceSplits(c, w, i + 1);
      assert c[..i + 2][..i + 1] == c[..i + 1];
    }
  }

  // ----- the least price -----

  function Min(a: Option<real>, b: Option<real>): Option<real> {
    match (a, b)
    case (None, _) => b
    case (_, None) => a
    case (Some(x), Some(y)) => if y < x then b else a
  }

  function Extend(best: Option<real>, price: real): Option<real> {
    if best.None? then None else Some(best.value + price)
  }

  /** The least price of k parts of r blocks whose last part starts below l. */
  function BestBelow(w: Price, r: nat, k: nat, l: nat): Option<real>
    requires k > 0
    decreases k, l
  {
    if l == 0 then None
    else Min(BestBelow(w, r, k, l - 1), Extend(Best(w, l - 1, k - 1), w(l - 1, r)))
  }

  /** The least price of k parts of r blocks, None if there is no such cut vector. */
  function Best(w: Price, r: nat, k: nat): Option<real>
    decreases k, r + 1
  {
    if k == 0 then (if r == 0 then Some(0.0) else None)
    else BestBelow(w, r, k, r)
  }

  /** There are k parts of r blocks exactly when there is a block for each. */
  lemma {:induction false} BestExists(w: Price, r: nat, k: nat)
    ensures Best(w, r, k).Some? <==> (if k == 0 then r == 0 else k <= r)
    decreases k, r + 1
  {
    if k > 0 { BestBelowExists(w, r, k, r); }
  }

  lemma {:induction false} BestBelowExists(w: Price, r: nat, k: nat, l: nat)
    requires k > 0
    ensures BestBelow(w, r, k, l).Some? <==> k <= l
    decreases k, l
  {
    if l > 0 {
      BestBelowExists(w, r, k, l - 1);
      BestExists(w, l - 1, k - 1);
    }
  }

  lemma {:induction false} BestBelowIsLeast(w: Price, r: nat, k: nat, l: nat, m: nat)
    requires k > 0 && m < l && Best(w, m, k - 1).Some?
    ensures BestBelow(w, r, k, l).Some?
    ensures BestBelow(w, r, k, l).value <= Best(w, m, k - 1).value + w(m, r)
    decreases l
  {
    if m < l - 1 { BestBelowIsLeast(w, r, k, l - 1, m); }
  }

  /** No cut vector is cheaper than Best. */
  lemma {:induction false} BestIsLeast(w: Price, r: nat, k: nat, c: seq<nat>)
    requires ValidCuts(c, k, r)
    ensures Best(w, r, k).Some? && Best(w, r, k).value <= PriceOf(c, w)
    decreases k
  {
    if k > 0 {
      BestIsLeast(w, c[k - 1], k - 1, c[..k]);
      BestBelowIsLeast(w, r, k, r, c[k - 1]);
    }
  }

  /** c is a cheapest cut vector. */
  ghost predicate Cheapest(c: seq<nat>, k: nat, r: nat, w: Price) {
    ValidCuts(c, k, r) && forall d :: ValidCuts(d, k, r) ==> PriceOf(c, w) <= PriceOf(d, w)
  }

  lemma PricedAtBest(c: seq<nat>, k: nat, r: nat, w: Price)
    requires ValidCuts(c, k, r) && Best(w, r, k) == Some(PriceOf(c, w))
    ensures Cheapest(c, k, r, w)
  {
    forall d | ValidCuts(d, k, r) ensures PriceOf(c, w) <= PriceOf(d, w) { BestIsLeast(w, r, k, d); }
  }

  // ----- the tables of a dynamic program -----

  /** A filled cell: the least price, and a start s of the last part that attains it. */
  ghost predicate Cell(w: Price, d: Option<real>, s: nat, r: nat, k: nat, best: Option<real>) {
    && d == best
    && (k > 0 && d.Some? ==> s < r && Best(w, s, k - 1).Some? && best == Some(Best(w, s, k - 1).value + w(s, r)))
  }

  ghost predicate LastCuts(w: Price, split: array2<nat>, r: nat, k: nat)
    reads split
  {
    && r < split.Length0 && k < split.Length1
    && forall r', k' {:trigger split[r', k']} :: 0 <= r' <= r && 0 <= k' <= k ==>
         Cell(w, Best(w, r', k'), split[r', k'], r', k', Best(w, r', k'))
  }

  /** Following the recorded last cuts from the right end gives a cheapest cut vector. */
  method FollowSplits(split: array2<nat>, ghost w: Price, r: nat, k: nat) returns (cuts: seq<nat>)
    requires LastCuts(w, split, r, k) && Best(w, r, k).Some?
    ensures Cheapest(cuts, k, r, w) && Best(w, r, k) == Some(PriceOf(cuts, w))
  {
    cuts := seq(k + 1, _ => 0);
    cuts := cuts[k := r];
    var current := r;
    var locks := k;
    while locks > 0
      invariant 0 <= locks <= k && |cuts| == k + 1 && cuts[locks] == current <= r
      invariant cuts[k] == r
      invariant forall i, j :: locks <= i < j <= k ==> cuts[i] < cuts[j]
      invariant Best(w, current, locks).Some?
      invariant Best(w, r, k).value == Best(w, current, locks).value + PriceFrom(cuts, w, locks)
    {
      var left := split[current, locks];
      ghost var tail := cuts;
      cuts := cuts[locks - 1 := left];
      PriceFromAgrees(tail, cuts, w, locks);
      current := left;
      locks := locks - 1;
    }
    PriceSplits(cuts, w, 0);
    PricedAtBest(cuts, k, r, w);
  }

  lemma {:induction false} PriceFromAgrees(c: seq<nat>, d: seq<nat>, w: Price, i: nat)
    requires |c| == |d| && forall j :: i <= j < |c| ==> c[j] == d[j]
    ensures PriceFrom(c, w, i) == PriceFrom(d, w, i)
    decreases |c| - i
  {
    if i + 1 < |c| { PriceFromAgrees(c, d, w, i + 1); }
  }

  // ----- the even cut -----

  function EvenCut(i: nat, k: nat, r: nat): nat
    requires k > 0
  {
    i * r / k
  }

  lemma EvenCutGrows(i: nat, k: nat, r: nat)
    requires 0 < k <= r
    ensures EvenCut(i, k, r) < EvenCut(i + 1, k, r)
  {
    var q := i * r / k;
    assert (i + 1) * r == i * r + r;
    assert i * r >= q * k;
    assert (i + 1) * r >= (q + 1) * k;
    QuotientAtLeast((i + 1) * r, k, q + 1);
  }

  lemma QuotientAtLeast(x: nat, k: nat, q: nat)
    requires k > 0 && x >= q * k
    ensures x / k >= q
  {
    var d := x / k;
    assert x < (d + 1) * k;
    if d < q { MulMonotone(d + 1, q, k); }
  }

  lemma QuotientOfProduct(k: nat, r: nat)
    requires k > 0
    ensures k * r / k == r
  {
    QuotientAtLeast(k * r, k, r);
    var d := k * r / k;
    assert d * k <= k * r;
    assert d > r ==> (r + 1) * k <= d * k;
  }

  lemma {:induction false} MulMonotone(a: nat, b: nat, k: nat)
    requires a <= b
    ensures a * k <= b * k
  {
    if a < b { MulMonotone(a, b - 1, k); }
  }

  /** The cuts i * r / k, with the last one set to r, are valid. */
  lemma EvenCutsValid(c: seq<nat>, k: nat, r: nat)
    requires 0 < k <= r && |c| == k + 1 && c[k] == r
    requires forall j :: 0 <= j < k ==> c[j] == EvenCut(j, k, r)
    ensures ValidCuts(c, k, r)
  {
    assert c[0] == 0;
    forall m {:trigger c[m + 1]} | 0 <= m < |c| - 1 ensures c[m] < c[m + 1] {
      EvenCutGrows(m, k, r);
      if m + 1 == k { QuotientOfProduct(k, r); }
    }
    forall i, j | 0 <= i < j <= k ensures c[i] < c[j] { GrowingIsIncreasing(c, i, j); }
  }

  lemma {:induction false} GrowingIsIncreasing(c: seq<nat>, i: nat, j: nat)
    requires i < j < |c| && forall m {:trigger c[m + 1]} :: 0 <= m < |c| - 1 ==> c[m] < c[m + 1]
    ensures c[i] < c[j]
  {
    var m := j - 1;
    assert c[m] < c[m + 1];
    if i < m { GrowingIsIncreasing(c, i, m); }
  }

  /** The partition both partitioners start from. */
  method EvenCuts(blocks: nat, locks: nat) returns (cuts: seq<nat>)
    requires 1 <= locks <= blocks
    ensures ValidCuts(cuts, locks, blocks)
    ensures forall j :: 0 <= j < locks ==> cuts[j] == EvenCut(j, locks, blocks)
  {
    cuts := [];
    var i := 0;
    while i <= locks
      invariant i <= locks + 1 && |cuts| == i
      invariant forall j :: 0 <= j < i ==> cuts[j] == EvenCut(j, locks, blocks)
    {
      cuts := cuts + [EvenCut(i, locks, blocks)];
      i := i + 1;
    }
    cuts := cuts[locks := blocks];
    EvenCutsValid(cuts, locks, blocks);
  }
}
