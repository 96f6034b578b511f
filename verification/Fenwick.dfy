/**
 Prefix sums in an array of partial sums: cell i holds the sum of the elements i & (i+1) .. i.
 */
module Fenwick {
  // ----- bits -----

  function And(x: nat, y: nat): nat {
    if x == 0 || y == 0 then 0 else 2 * And(x / 2, y / 2) + (if x % 2 == 1 && y % 2 == 1 then 1 else 0)
  }

  function Or(x: nat, y: nat): nat {
    if x == 0 then y
    else if y == 0 then x
    else 2 * Or(x / 2, y / 2) + (if x % 2 == 1 || y % 2 == 1 then 1 else 0)
  }

  /** The first element cell i covers. */
  function First(i: nat): nat { And(i, i + 1) }

  /** The next cell that covers element i. */
  function NextCell(i: nat): nat { Or(i, i + 1) }

  lemma {:induction false} AndSelf(x: nat)
    ensures And(x, x) == x && Or(x, x) == x
  {
    if x > 0 { AndSelf(x / 2); }
  }

  lemma EvenCell(j: nat)
    ensures First(2 * j) == 2 * j && NextCell(2 * j) == 2 * j + 1
  {
    AndSelf(j);
    if j > 0 {
      assert (2 * j + 1) / 2 == j;
      assert And(2 * j, 2 * j + 1) == 2 * And(j, j);
      assert Or(2 * j, 2 * j + 1) == 2 * Or(j, j) + 1;
    }
  }

  lemma OddCell(j: nat)
    ensures First(2 * j + 1) == 2 * First(j) && NextCell(2 * j + 1) == 2 * NextCell(j) + 1
  {
    var x, y := 2 * j + 1, 2 * j + 2;
    assert x / 2 == j && y / 2 == j + 1;
    assert And(x, y) == 2 * And(j, j + 1);
    assert Or(x, y) == 2 * Or(j, j + 1) + 1;
  }

  /** Both walks make progress. */
  lemma {:induction false} WalksProgress(i: nat)
    ensures First(i) <= i < NextCell(i)
  {
    var j := i / 2;
    if i % 2 == 0 { EvenCell(j); } else { OddCell(j); WalksProgress(j); }
  }

  /** The next cell covers all that this cell covers. */
  lemma {:induction false} NextCovers(i: nat)
    ensures First(NextCell(i)) <= First(i)
  {
    var j := i / 2;
    if i % 2 == 0 {
      EvenCell(j);
      OddCell(j);
      WalksProgress(j);
    } else {
      OddCell(j);
      OddCell(NextCell(j));
      NextCovers(j);
    }
  }

  /** No cell in between covers element i. */
  lemma {:induction false} NoneBetween(i: nat, m: nat)
    requires i < m < NextCell(i)
    ensures First(m) > i
  {
    var j, n := i / 2, m / 2;
    if i % 2 == 0 {
      EvenCell(j);
    } else {
      OddCell(j);
      if m % 2 == 0 {
        EvenCell(n);
      } else {
        OddCell(n);
        NoneBetween(j, n);
      }
    }
  }

  predicate Covers(m: nat, i: nat) { First(m) <= i <= m }

  // ----- sums -----

  /** a[lo] + ... + a[hi-1] */
  function Sum(a: seq<int>, lo: nat, hi: nat): int
    requires hi <= |a|
  {
    if hi <= lo then 0 else Sum(a, lo, hi - 1) + a[hi - 1]
  }

  lemma {:induction false} SumSplits(a: seq<int>, lo: nat, mid: nat, hi: nat)
    requires lo <= mid <= hi <= |a|
    ensures Sum(a, lo, hi) == Sum(a, lo, mid) + Sum(a, mid, hi)
  {
    if mid < hi { SumSplits(a, lo, mid, hi - 1); }
  }

  lemma {:induction false} SumUpdate(a: seq<int>, i: nat, x: int, lo: nat, hi: nat)
    requires i < |a| && hi <= |a|
    ensures Sum(a[i := x], lo, hi) == Sum(a, lo, hi) + if lo <= i < hi then x - a[i] else 0
  {
    if lo < hi { SumUpdate(a, i, x, lo, hi - 1); }
  }

  /** The cells stand for the elements a. */
  ghost predicate Represents(cells: seq<int>, a: seq<int>) {
    |cells| >= |a| && forall i :: 0 <= i < |a| ==> cells[i] == Sum(a, First(i), i + 1)
  }

  // ----- the operations -----

  /** Prefix sums from left to right, differences from right to left; source and destination may be one. */
  method Init(src: array<int>, dst: array<int>, count: nat)
    requires 1 <= count <= src.Length && count <= dst.Length
    modifies dst
    ensures Represents(dst[..], old(src[..count]))
    ensures forall i :: count <= i < dst.Length ==> dst[i] == old(dst[i])
  {
    ghost var a := src[..count];
    dst[0] := src[0];
    var i := 1;
    while i < count
      invariant 1 <= i <= count
      invariant forall j :: 0 <= j < i ==> dst[j] == Sum(a, 0, j + 1)
      invariant forall j :: i <= j < count ==> src[j] == a[j]
      invariant forall j :: count <= j < dst.Length ==> dst[j] == old(dst[j])
    {
      dst[i] := dst[i - 1] + src[i];
      i := i + 1;
    }
    i := count - 1;
    while i >= 0
      invariant -1 <= i < count
      invariant forall j :: 0 <= j <= i ==> dst[j] == Sum(a, 0, j + 1)
      invariant forall j :: i < j < count ==> dst[j] == Sum(a, First(j), j + 1)
      invariant forall j :: count <= j < dst.Length ==> dst[j] == old(dst[j])
    {
      var next := First(i);
      WalksProgress(i);
      SumSplits(a, 0, next, i + 1);
      dst[i] := dst[i] - if next == 0 then 0 else dst[next - 1];
      i := i - 1;
    }
  }

  /** Touches exactly the cells that cover the index. */
  method Modify(bit: array<int>, count: nat, index: nat, delta: int)
    requires count <= bit.Length
    modifies bit
    ensures forall m :: 0 <= m < bit.Length ==>
      bit[m] == old(bit[m]) + if m < count && Covers(m, index) then delta else 0
  {
    var i := index;
    WalksProgress(index);
    while i < count
      invariant Covers(i, index)
      invariant forall m :: 0 <= m < bit.Length ==>
        bit[m] == old(bit[m]) + if m < count && m < i && Covers(m, index) then delta else 0
      decreases count - i
    {
      bit[i] := bit[i] + delta;
      WalksProgress(i);
      NextCovers(i);
      forall m: nat | i < m < NextCell(i) ensures !Covers(m, index) { NoneBetween(i, m); }
      i := NextCell(i);
    }
  }

  /** So one element changes in what the cells stand for. */
  lemma ModifiedElement(before: seq<int>, after: seq<int>, a: seq<int>, index: nat, delta: int)
    requires Represents(before, a) && |after| == |before| && index < |a|
    requires forall m :: 0 <= m < |a| ==> after[m] == before[m] + if Covers(m, index) then delta else 0
    ensures Represents(after, a[index := a[index] + delta])
  {
    forall m: nat | m < |a| ensures after[m] == Sum(a[index := a[index] + delta], First(m), m + 1) {
      WalksProgress(m);
      SumUpdate(a, index, a[index] + delta, First(m), m + 1);
    }
  }

  /** The sum of the elements up to and including `right`; none if right is negative. */
  method Calculate(bit: array<int>, right: int, ghost a: seq<int>) returns (result: int)
    requires Represents(bit[..], a) && right < |a|
    ensures result == Sum(a, 0, if right < 0 then 0 else right + 1)
  {
    result := 0;
    var r := right;
    while r >= 0
      invariant r < |a| && (right >= 0 ==> r >= -1)
      invariant right >= 0 ==> result + Sum(a, 0, r + 1) == Sum(a, 0, right + 1)
      invariant right < 0 ==> result == 0
    {
      WalksProgress(r);
      SumSplits(a, 0, First(r), r + 1);
      assert bit[..][r] == Sum(a, First(r), r + 1);
      result := result + bit[r];
      r := First(r) - 1;
    }
  }

  // ----- whole runs -----

  datatype Update = Update(index: nat, delta: int)

  /** The elements after some updates; those out of range are ignored. */
  function Updated(a: seq<int>, us: seq<Update>): (b: seq<int>)
    ensures |b| == |a|
  {
    if us == [] then a
    else
      var b, u := Updated(a, us[..|us| - 1]), us[|us| - 1];
      if u.index < |b| then b[u.index := b[u.index] + u.delta] else b
  }

  /** The cells after some modifications. */
  function Modified(cells: seq<int>, count: nat, us: seq<Update>): (after: seq<int>)
    ensures |after| == |cells|
  {
    if us == [] then cells
    else
      var before, u := Modified(cells, count, us[..|us| - 1]), us[|us| - 1];
      seq(|cells|, (m: nat) requires m < |cells| => before[m] + if m < count && Covers(m, u.index) then u.delta else 0)
  }

  /** After any modifications the cells still stand for the elements. */
  lemma {:induction false} RunRepresents(cells: seq<int>, a: seq<int>, us: seq<Update>)
    requires Represents(cells, a)
    ensures Represents(Modified(cells, |a|, us), Updated(a, us))
  {
    if us != [] {
      var init, u := us[..|us| - 1], us[|us| - 1];
      RunRepresents(cells, a, init);
      if u.index < |a| {
        ModifiedElement(Modified(cells, |a|, init), Modified(cells, |a|, us), Updated(a, init), u.index, u.delta);
      }
    }
  }
}
