/** What the partition optimiser is judged by: loads and prices of cut vectors, and their repair. */
module Chromosomes {
  import opened Cuts
  import opened LockAccounting

  const U64: nat := 0x1_0000_0000_0000_0000

  datatype Query = Query(left: nat, right: nat)

  // ----- loads and masses -----

  function LoadPrice(prefix: seq<nat>): Price {
    (l: nat, r: nat) => if l < |prefix| && r < |prefix| then Square((prefix[r] as int) - prefix[l]) as real else 0.0
  }

  function MassPrice(prefix: seq<real>): Price {
    (l: nat, r: nat) =>
      if l < |prefix| && r < |prefix| then (prefix[r] - prefix[l]) * (prefix[r] - prefix[l]) else 0.0
  }

  /** The contention score of a partition is its price by load. */
  lemma {:induction false} ContentionIsPrice(
      log: seq<Span>, stats: seq<nat>, prefix: seq<nat>, c: seq<nat>, k: nat, n: nat)
    requires HitsOf(log, stats) && IsPrefixSum(prefix, stats) && ValidCuts(c, k, |stats|) && n <= k
    ensures PriceOf(c[..n + 1], LoadPrice(prefix)) == SquaredLoads(log, c, |stats|, n) as real
  {
    if n > 0 {
      ContentionIsPrice(log, stats, prefix, c, k, n - 1);
      LoadIsDifference(log, stats, prefix, c, k, n - 1, |stats|);
      assert c[..n + 1][..n] == c[..n];
    }
  }

  /** x is y scaled down by t. */
  ghost predicate Scales(x: real, t: real, y: real) { x * t == y }

  ghost predicate Scaled(prefix: seq<nat>, masses: seq<real>, total: real) {
    |masses| == |prefix| && forall n :: 0 <= n < |prefix| ==> Scales(masses[n], total, prefix[n] as real)
  }

  lemma {:induction false} PriceScales(c: seq<nat>, prefix: seq<nat>, masses: seq<real>, total: real)
    requires Scaled(prefix, masses, total)
    ensures Scales(PriceOf(c, MassPrice(masses)), total * total, PriceOf(c, LoadPrice(prefix)))
  {
    if |c| > 1 {
      PriceScales(c[..|c| - 1], prefix, masses, total);
      var l, r := c[|c| - 2], c[|c| - 1];
      var rest, last := PriceOf(c[..|c| - 1], MassPrice(masses)), MassPrice(masses)(l, r);
      EdgeScales(l, r, prefix, masses, total);
      assert (rest + last) * (total * total) == rest * (total * total) + last * (total * total);
    }
  }

  lemma EdgeScales(l: nat, r: nat, prefix: seq<nat>, masses: seq<real>, total: real)
    requires Scaled(prefix, masses, total)
    ensures MassPrice(masses)(l, r) * (total * total) == LoadPrice(prefix)(l, r)
  {
    if l < |prefix| && r < |prefix| {
      var x, y := masses[r] - masses[l], (prefix[r] as int) - prefix[l];
      assert x * total == masses[r] * total - masses[l] * total == y as real;
      SquareScales(x, total, y);
    }
  }

  lemma SquareScales(x: real, t: real, y: int)
    requires x * t == y as real
    ensures x * x * (t * t) == Square(y) as real
  {
    assert x * x * (t * t) == (x * t) * (x * t);
  }

  // ----- repairing cuts -----

  /** Cuts strictly between 0 and blocks, in strictly increasing order. */
  ghost predicate InternalCuts(v: seq<nat>, blocks: nat) {
    && (forall i :: 0 <= i < |v| ==> 1 <= v[i] < blocks)
    && forall i, j :: 0 <= i < j < |v| ==> v[i] < v[j]
  }

  function Successor(x: nat): nat { (x + 1) % U64 }

  /** What a forward pass leaves behind. */
  ghost predicate Pushed(v: seq<nat>, w: seq<nat>) {
    && |w| == |v| && (|v| > 0 ==> w[0] == v[0])
    && forall i :: 0 < i < |v| ==> w[i] == if v[i] < Successor(w[i - 1]) then Successor(w[i - 1]) else v[i]
  }

  function PushedThrough(v: seq<nat>): (w: seq<nat>)
    ensures Pushed(v, w)
  {
    if |v| <= 1 then v
    else
      var p, x := PushedThrough(v[..|v| - 1]), v[|v| - 1];
      p + [if x < Successor(p[|v| - 2]) then Successor(p[|v| - 2]) else x]
  }

  lemma PushedIsUnique(v: seq<nat>, w: seq<nat>)
    requires Pushed(v, w)
    ensures w == PushedThrough(v)
  {
    forall i | 0 <= i < |v| ensures w[i] == PushedThrough(v)[i] { PushedAgrees(v, w, PushedThrough(v), i); }
  }

  lemma {:induction false} PushedAgrees(v: seq<nat>, w: seq<nat>, w': seq<nat>, i: nat)
    requires Pushed(v, w) && Pushed(v, w') && i < |v|
    ensures w[i] == w'[i]
  {
    if i > 0 { PushedAgrees(v, w, w', i - 1); }
  }

  /** One forward pass; the increment is that of a 64-bit word. */
  method PushForward(v: array<nat>)
    requires forall i :: 0 <= i < v.Length ==> v[i] < U64
    modifies v
    ensures forall i :: 0 <= i < v.Length ==> v[i] < U64
    ensures v[..] == PushedThrough(old(v[..]))
  {
    var i := 1;
    while i < v.Length
      invariant v.Length > 0 ==> 1 <= i <= v.Length && v[0] == old(v[0])
      invariant forall j :: 0 <= j < v.Length ==> v[j] < U64
      invariant forall j :: i <= j < v.Length ==> v[j] == old(v[j])
      invariant forall j :: 0 < j < i && j < v.Length ==>
        v[j] == if old(v[j]) < Successor(v[j - 1]) then Successor(v[j - 1]) else old(v[j])
    {
      if v[i] < Successor(v[i - 1]) { v[i] := Successor(v[i - 1]); }
      i := i + 1;
    }
    PushedIsUnique(old(v[..]), v[..]);
  }

  /** Every cut leaves room for the cuts after it. */
  function BoundedBack(v: seq<nat>, blocks: nat): (w: seq<nat>)
    requires |v| < blocks
    ensures |w| == |v|
  {
    seq(|v|, (i: nat) requires i < |v| => if blocks - (|v| - i) < v[i] then blocks - (|v| - i) else v[i])
  }

  /** The backward pass. */
  method ClampBackward(v: array<nat>, blocks: nat)
    requires v.Length < blocks
    modifies v
    ensures v[..] == BoundedBack(old(v[..]), blocks)
  {
    var offset := 0;
    while offset < v.Length
      invariant 0 <= offset <= v.Length
      invariant forall j :: 0 <= j < v.Length - offset ==> v[j] == old(v[j])
      invariant forall j :: v.Length - offset <= j < v.Length ==>
        v[j] == if blocks - (v.Length - j) < old(v[j]) then blocks - (v.Length - j) else old(v[j])
    {
      var i := v.Length - 1 - offset;
      var upperBound := blocks - (v.Length - i);
      if upperBound < v[i] { v[i] := upperBound; }
      offset := offset + 1;
    }
  }

  function ClampedFirst(v: seq<nat>, blocks: nat): seq<nat>
    requires 0 < |v| < blocks
  {
    v[0 := if v[0] < 1 then 1 else if v[0] > blocks - |v| then blocks - |v| else v[0]]
  }

  function Repair(v: seq<nat>, blocks: nat): (w: seq<nat>)
    requires |v| < blocks
    ensures |w| == |v|
  {
    if v == [] then [] else PushedThrough(BoundedBack(PushedThrough(ClampedFirst(v, blocks)), blocks))
  }

  /** Any vector of words becomes a vector of internal cuts, even if the first pass wraps around; one that
      already is stays as it is. */
  method RepairInternalCuts(v: array<nat>, blocks: nat)
    requires v.Length < blocks < U64 && forall i :: 0 <= i < v.Length ==> v[i] < U64
    modifies v
    ensures v[..] == Repair(old(v[..]), blocks)
    ensures InternalCuts(v[..], blocks)
    ensures InternalCuts(old(v[..]), blocks) ==> v[..] == old(v[..])
  {
    ghost var was := v[..];
    Repaired(was, blocks);
    if v.Length == 0 { return; }
    var count := v.Length;
    v[0] := if v[0] < 1 then 1 else if v[0] > blocks - count then blocks - count else v[0];
    assert v[..] == ClampedFirst(was, blocks);
    ThreePasses(v, blocks, ClampedFirst(was, blocks));
  }

  method ThreePasses(v: array<nat>, blocks: nat, ghost was: seq<nat>)
    requires v.Length < blocks < U64 && v[..] == was && forall i :: 0 <= i < v.Length ==> v[i] < U64
    modifies v
    ensures v[..] == PushedThrough(BoundedBack(PushedThrough(was), blocks))
  {
    PushForward(v);
    ClampBackward(v, blocks);
    PushForward(v);
  }

  /** The repair yields internal cuts and leaves internal cuts alone. */
  lemma Repaired(v: seq<nat>, blocks: nat)
    requires |v| < blocks < U64
    ensures InternalCuts(Repair(v, blocks), blocks)
    ensures InternalCuts(v, blocks) ==> Repair(v, blocks) == v
  {
    if v != [] {
      var pushed := PushedThrough(ClampedFirst(v, blocks));
      Spread(Repair(v, blocks), blocks);
      if InternalCuts(v, blocks) {
        RoomAfter(v, blocks);
        assert ClampedFirst(v, blocks) == v;
        Settled(v, pushed, blocks);
      }
    }
  }

  /** Internal cuts survive a backward and a forward pass. */
  lemma Settled(v: seq<nat>, pushed: seq<nat>, blocks: nat)
    requires |v| < blocks < U64 && InternalCuts(v, blocks) && Pushed(v, pushed)
    ensures pushed == v && PushedThrough(BoundedBack(v, blocks)) == v
  {
    Unpushed(v, pushed, blocks);
    RoomAfter(v, blocks);
    assert BoundedBack(v, blocks) == v;
    Unpushed(v, PushedThrough(v), blocks);
  }

  /** Cut j is right, or too low and right above the cut before it. */
  predicate Restorable(v: seq<nat>, t: seq<nat>, j: nat)
    requires |v| == |t| && j < |t|
  {
    v[j] == t[j] || t[j] == (if j == 0 then 0 else t[j - 1]) + 1
  }

  /** When some of the internal cuts t are too low, the repair restores t exactly if each of them belongs right
      above the cut before it. */
  lemma RepairRestores(v: seq<nat>, t: seq<nat>, blocks: nat)
    requires InternalCuts(t, blocks) && |v| == |t| < blocks < U64 && forall j :: 0 <= j < |t| ==> v[j] <= t[j]
    ensures Repair(v, blocks) == t <==> forall j :: 0 <= j < |t| ==> Restorable(v, t, j)
  {
    if v != [] {
      var pushed := PushedThrough(ClampedFirst(v, blocks));
      if forall j :: 0 <= j < |t| ==> Restorable(v, t, j) {
        forall j | 0 <= j < |t| ensures pushed[j] == t[j] { PushRestores(v, pushed, t, blocks, j); }
        assert pushed == t;
        Settled(t, PushedThrough(t), blocks);
      }
      if Repair(v, blocks) == t {
        forall j | 0 <= j < |t| ensures Restorable(v, t, j) { OnlyRestorable(v, pushed, t, blocks, j); }
      }
    }
  }

  function Greater(x: nat, y: nat): nat { if x < y then y else x }

  /** Entry j only got what the one before it demands, and stays within t. */
  ghost predicate Lifted(v: seq<nat>, w: seq<nat>, t: seq<nat>, j: nat) {
    && j < |v| == |w| == |t|
    && w[j] <= t[j] && w[j] == Greater(v[j], (if j == 0 then 0 else w[j - 1]) + 1)
  }

  /** The repair of cuts that are nowhere above the internal cuts t. */
  lemma RepairBelow(v: seq<nat>, t: seq<nat>, blocks: nat)
    requires InternalCuts(t, blocks) && |v| == |t| < blocks < U64 && forall j :: 0 <= j < |t| ==> v[j] <= t[j]
    ensures forall j {:trigger Lifted(v, Repair(v, blocks), t, j)} :: 0 <= j < |t| ==> Lifted(v, Repair(v, blocks), t, j)
  {
    if v != [] {
      RoomAfter(t, blocks);
      var w := PushedThrough(ClampedFirst(v, blocks));
      forall j | 0 <= j < |t| ensures Lifted(v, w, t, j) { PushedBelow(v, w, t, blocks, j); }
      LiftedIsInternal(v, w, t, blocks);
      Settled(w, PushedThrough(w), blocks);
    }
  }

  lemma {:induction false} PushedBelow(v: seq<nat>, w: seq<nat>, t: seq<nat>, blocks: nat, j: nat)
    requires InternalCuts(t, blocks) && 0 < |v| == |t| < blocks < U64 && forall j :: 0 <= j < |t| ==> v[j] <= t[j]
    requires t[0] <= blocks - |t| && Pushed(ClampedFirst(v, blocks), w) && j < |t|
    ensures Lifted(v, w, t, j)
  {
    if j > 0 {
      PushedBelow(v, w, t, blocks, j - 1);
      assert t[j - 1] < t[j];
    }
  }

  lemma LiftedIsInternal(v: seq<nat>, w: seq<nat>, t: seq<nat>, blocks: nat)
    requires InternalCuts(t, blocks) && |v| == |w| == |t|
    requires forall j {:trigger Lifted(v, w, t, j)} :: 0 <= j < |t| ==> Lifted(v, w, t, j)
    ensures InternalCuts(w, blocks)
  {
    forall i | 0 <= i < |w| ensures 1 <= w[i] < blocks { assert Lifted(v, w, t, i); }
    forall i, j | 0 <= i < j < |w| ensures w[i] < w[j] { LiftedApart(v, w, t, i, j); }
  }

  lemma {:induction false} LiftedApart(v: seq<nat>, w: seq<nat>, t: seq<nat>, i: nat, j: nat)
    requires i < j < |w| && forall j {:trigger Lifted(v, w, t, j)} :: 0 <= j < |w| ==> Lifted(v, w, t, j)
    ensures w[i] < w[j]
  {
    assert Lifted(v, w, t, j);
    if i < j - 1 { LiftedApart(v, w, t, i, j - 1); }
  }

  lemma {:induction false} PushRestores(v: seq<nat>, pushed: seq<nat>, t: seq<nat>, blocks: nat, j: nat)
    requires InternalCuts(t, blocks) && |v| == |t| < blocks < U64 && forall i :: 0 <= i < |t| ==> v[i] <= t[i]
    requires j < |t| && Pushed(ClampedFirst(v, blocks), pushed)
    requires forall i :: 0 <= i <= j ==> Restorable(v, t, i)
    ensures pushed[j] == t[j]
  {
    RoomAfter(t, blocks);
    assert Restorable(v, t, j);
    if j > 0 {
      PushRestores(v, pushed, t, blocks, j - 1);
      assert t[j - 1] < t[j];
    }
  }

  lemma {:induction false} OnlyRestorable(v: seq<nat>, pushed: seq<nat>, t: seq<nat>, blocks: nat, j: nat)
    requires InternalCuts(t, blocks) && |v| == |t| < blocks < U64 && forall i :: 0 <= i < |t| ==> v[i] <= t[i]
    requires j < |t| && Pushed(ClampedFirst(v, blocks), pushed) && Pushed(BoundedBack(pushed, blocks), t)
    ensures Restorable(v, t, j) && pushed[j] == t[j]
  {
    RoomAfter(t, blocks);
    if j > 0 {
      OnlyRestorable(v, pushed, t, blocks, j - 1);
      assert t[j - 1] < t[j];
    }
  }

  /** The i-th cut is not below the i-th one of v, as far as the cuts behind it leave room. */
  predicate Covers(w: seq<nat>, v: seq<nat>, blocks: nat, i: nat)
    requires i < |v| == |w| < blocks
  {
    w[i] >= Bounded(v[i], blocks - (|v| - i))
  }

  function Bounded(x: nat, bound: nat): nat { if bound < x then bound else x }

  /** The repair is the least of all vectors of internal cuts that are not below the given ones, as far as there is
      room, whatever the words in the vector. */
  lemma RepairIsLeast(v: seq<nat>, u: seq<nat>, blocks: nat)
    requires |v| == |u| < blocks < U64
    ensures forall i :: 0 <= i < |v| ==> Covers(Repair(v, blocks), v, blocks, i)
    ensures InternalCuts(u, blocks) && (forall i :: 0 <= i < |v| ==> Covers(u, v, blocks, i)) ==>
              forall i :: 0 <= i < |v| ==> Repair(v, blocks)[i] <= u[i]
  {
    if v != [] {
      var p := PushedThrough(ClampedFirst(v, blocks));
      var w := PushedThrough(BoundedBack(p, blocks));
      forall i | 0 <= i < |v| ensures Covers(w, v, blocks, i) { NoLower(v, p, w, blocks, i); }
      if InternalCuts(u, blocks) && forall i :: 0 <= i < |v| ==> Covers(u, v, blocks, i) {
        forall i | 0 <= i < |v| ensures w[i] <= u[i] { NoHigher(v, p, w, u, blocks, i); }
      }
    }
  }

  lemma NoLower(v: seq<nat>, p: seq<nat>, w: seq<nat>, blocks: nat, i: nat)
    requires i < |v| < blocks && Pushed(ClampedFirst(v, blocks), p) && Pushed(BoundedBack(p, blocks), w)
    ensures Covers(w, v, blocks, i)
  {
    PushedUp(ClampedFirst(v, blocks), p, i);
    PushedUp(BoundedBack(p, blocks), w, i);
  }

  /** A forward pass takes no cut down. */
  lemma PushedUp(v: seq<nat>, w: seq<nat>, i: nat)
    requires Pushed(v, w) && i < |v|
    ensures w[i] >= v[i]
  {
    if i > 0 { assert w[i] == if v[i] < Successor(w[i - 1]) then Successor(w[i - 1]) else v[i]; }
  }

  lemma {:induction false} NoHigher(v: seq<nat>, p: seq<nat>, w: seq<nat>, u: seq<nat>, blocks: nat, i: nat)
    requires i < |v| == |u| < blocks < U64 && InternalCuts(u, blocks)
    requires Pushed(ClampedFirst(v, blocks), p) && Pushed(BoundedBack(p, blocks), w)
    requires forall j :: 0 <= j < |v| ==> Covers(u, v, blocks, j)
    ensures Bounded(p[i], blocks - (|v| - i)) <= u[i] && w[i] <= u[i]
  {
    assert Covers(u, v, blocks, i);
    if i > 0 {
      NoHigher(v, p, w, u, blocks, i - 1);
      assert u[i - 1] < u[i];
    }
  }

  /** Increasing cuts leave room for each other. */
  lemma RoomAfter(v: seq<nat>, blocks: nat)
    requires InternalCuts(v, blocks)
    ensures forall i :: 0 <= i < |v| ==> v[i] <= blocks - (|v| - i)
  {
    forall i | 0 <= i < |v| ensures v[i] <= blocks - (|v| - i) { RoomAfterAt(v, blocks, i); }
  }

  lemma {:induction false} RoomAfterAt(v: seq<nat>, blocks: nat, i: nat)
    requires InternalCuts(v, blocks) && i < |v|
    ensures v[i] <= blocks - (|v| - i)
    decreases |v| - i
  {
    if i + 1 < |v| { RoomAfterAt(v, blocks, i + 1); }
  }

  /** A forward pass leaves internal cuts alone. */
  lemma Unpushed(v: seq<nat>, w: seq<nat>, blocks: nat)
    requires InternalCuts(v, blocks) && blocks < U64 && Pushed(v, w)
    ensures w == v
  {
    forall i | 0 <= i < |v| ensures w[i] == v[i] { UnpushedAt(v, w, blocks, i); }
  }

  lemma {:induction false} UnpushedAt(v: seq<nat>, w: seq<nat>, blocks: nat, i: nat)
    requires InternalCuts(v, blocks) && blocks < U64 && Pushed(v, w) && i < |v|
    ensures w[i] == v[i]
  {
    if i > 0 {
      UnpushedAt(v, w, blocks, i - 1);
      assert v[i - 1] < v[i];
    }
  }

  /** After the last pass neighbours are apart and below their bounds, hence all are. */
  lemma Spread(v: seq<nat>, blocks: nat)
    requires |v| < blocks < U64
    requires |v| > 0 ==> 1 <= v[0] <= blocks - |v|
    requires forall i :: 0 < i < |v| ==> v[i] >= Successor(v[i - 1])
    requires forall i :: 0 < i < |v| ==> v[i] <= blocks - (|v| - i) || v[i] == Successor(v[i - 1])
    ensures InternalCuts(v, blocks)
  {
    forall i | 0 <= i < |v| ensures 1 <= v[i] <= blocks - (|v| - i) { SpreadAt(v, blocks, i); }
    forall i, j | 0 <= i < j < |v| ensures v[i] < v[j] { SpreadApart(v, blocks, i, j); }
  }

  lemma {:induction false} SpreadAt(v: seq<nat>, blocks: nat, i: nat)
    requires |v| < blocks < U64 && i < |v| && 1 <= v[0] <= blocks - |v|
    requires forall i :: 0 < i < |v| ==> v[i] >= Successor(v[i - 1])
    requires forall i :: 0 < i < |v| ==> v[i] <= blocks - (|v| - i) || v[i] == Successor(v[i - 1])
    ensures 1 <= v[i] <= blocks - (|v| - i)
  {
    if i > 0 { SpreadAt(v, blocks, i - 1); }
  }

  lemma {:induction false} SpreadApart(v: seq<nat>, blocks: nat, i: nat, j: nat)
    requires |v| < blocks < U64 && i < j < |v|
    requires forall i :: 0 <= i < |v| ==> v[i] <= blocks - (|v| - i)
    requires forall i :: 0 < i < |v| ==> v[i] >= Successor(v[i - 1])
    ensures v[i] < v[j]
  {
    assert v[j - 1] < v[j];
    if i < j - 1 { SpreadApart(v, blocks, i, j - 1); }
  }

  // ----- block profiles -----

  function TotalHits(log: seq<Span>, n: nat): nat {
    if n == 0 then 0 else TotalHits(log, n - 1) + Hits(log, n - 1)
  }

  function SumTo(p: seq<real>, n: nat): real
    requires n <= |p|
  {
    if n == 0 then 0.0 else SumTo(p, n - 1) + p[n - 1]
  }

  ghost function Masses(p: seq<real>): seq<real> {
    seq(|p| + 1, (n: nat) requires n <= |p| => SumTo(p, n))
  }

  /** Scaled up by the total, the share of a block is the number of its hits. */
  ghost predicate Shares(log: seq<Span>, p: seq<real>, total: real) {
    forall b :: 0 <= b < |p| ==> Scales(p[b], total, Hits(log, b) as real)
  }

  /** The share of every block in all hits; nothing at all if there are no hits. */
  ghost predicate ProfileOf(log: seq<Span>, p: seq<real>) {
    if TotalHits(log, |p|) == 0 then forall b :: 0 <= b < |p| ==> p[b] == 0.0
    else Shares(log, p, TotalHits(log, |p|) as real)
  }

  lemma {:induction false} ShareSum(log: seq<Span>, p: seq<real>, total: real, n: nat)
    requires Shares(log, p, total) && n <= |p|
    ensures Scales(SumTo(p, n), total, TotalHits(log, n) as real)
  {
    if n > 0 {
      ShareSum(log, p, total, n - 1);
      Distribute(SumTo(p, n - 1), p[n - 1], total);
    }
  }

  lemma Distribute(a: real, b: real, t: real)
    ensures (a + b) * t == a * t + b * t
  {
  }

  lemma CancelOne(a: real, t: real)
    requires t != 0.0 && a * t == t
    ensures a == 1.0
  {
    assert (a - 1.0) * t == 0.0;
  }

  lemma {:induction false} NothingSums(p: seq<real>, n: nat)
    requires n <= |p| && forall b :: 0 <= b < |p| ==> p[b] == 0.0
    ensures SumTo(p, n) == 0.0
  {
    if n > 0 { NothingSums(p, n - 1); }
  }

  /** Nothing was hit, or the shares add up to one. */
  lemma ProfileIsNormalised(log: seq<Span>, p: seq<real>)
    requires ProfileOf(log, p)
    ensures SumTo(p, |p|) == if TotalHits(log, |p|) == 0 then 0.0 else 1.0
  {
    if TotalHits(log, |p|) == 0 {
      NothingSums(p, |p|);
    } else {
      var t := TotalHits(log, |p|) as real;
      ShareSum(log, p, t, |p|);
      CancelOne(SumTo(p, |p|), t);
    }
  }

  lemma {:induction false} NoHits(log: seq<Span>, c: seq<nat>, blocks: nat, i: nat, n: nat)
    requires c != [] && n <= blocks && TotalHits(log, n) == 0
    ensures Load(log, c, i, n) == 0
  {
    if n > 0 { NoHits(log, c, blocks, i, n - 1); }
  }

  lemma {:induction false} NoContention(log: seq<Span>, c: seq<nat>, blocks: nat, n: nat)
    requires c != [] && TotalHits(log, blocks) == 0
    ensures SquaredLoads(log, c, blocks, n) == 0
  {
    if n > 0 {
      NoContention(log, c, blocks, n - 1);
      NoHits(log, c, blocks, n - 1, blocks);
    }
  }

  /** Without mass every partition will do; otherwise a cheapest one by mass is wanted. */
  ghost predicate Balanced(c: seq<nat>, k: nat, p: seq<real>) {
    ValidCuts(c, k, |p|) && (SumTo(p, |p|) > 0.0 ==> Cheapest(c, k, |p|, MassPrice(Masses(p))))
  }

  ghost predicate LeastContended(log: seq<Span>, c: seq<nat>, k: nat, r: nat) {
    && ValidCuts(c, k, r)
    && forall d :: ValidCuts(d, k, r) ==> SquaredLoads(log, c, r, k) <= SquaredLoads(log, d, r, k)
  }

  /** Balancing the normalised profile loses nothing: no partition has less contention. */
  lemma BalancedIsLeastContended(log: seq<Span>, p: seq<real>, c: seq<nat>, k: nat)
    requires ProfileOf(log, p) && Balanced(c, k, p)
    ensures LeastContended(log, c, k, |p|)
  {
    ProfileIsNormalised(log, p);
    forall d | ValidCuts(d, k, |p|) ensures SquaredLoads(log, c, |p|, k) <= SquaredLoads(log, d, |p|, k) {
      if TotalHits(log, |p|) == 0 {
        NoContention(log, c, |p|, k);
      } else {
        LighterIsLessContended(log, p, c, d, k, TotalHits(log, |p|) as real);
      }
    }
  }

  lemma LighterIsLessContended(log: seq<Span>, p: seq<real>, c: seq<nat>, d: seq<nat>, k: nat, total: real)
    requires Shares(log, p, total) && ValidCuts(c, k, |p|) && ValidCuts(d, k, |p|)
    requires PriceOf(c, MassPrice(Masses(p))) <= PriceOf(d, MassPrice(Masses(p)))
    ensures SquaredLoads(log, c, |p|, k) <= SquaredLoads(log, d, |p|, k)
  {
    var x, y := PriceOf(c, MassPrice(Masses(p))), PriceOf(d, MassPrice(Masses(p)));
    var m, n := SquaredLoads(log, c, |p|, k), SquaredLoads(log, d, |p|, k);
    MassIsContention(log, p, c, k, total);
    MassIsContention(log, p, d, k, total);
    ScaledOrder(x, y, total, m as real, n as real);
  }

  lemma ScaledOrder(x: real, y: real, t: real, m: real, n: real)
    requires x <= y && Scales(x, t * t, m) && Scales(y, t * t, n)
    ensures m <= n
  {
    var q := t * t;
    assert q >= 0.0;
    assert (y - x) * q >= 0.0;
  }

  /** The price by mass is the contention score, scaled down. */
  lemma MassIsContention(log: seq<Span>, p: seq<real>, c: seq<nat>, k: nat, total: real)
    requires Shares(log, p, total) && ValidCuts(c, k, |p|)
    ensures Scales(PriceOf(c, MassPrice(Masses(p))), total * total, SquaredLoads(log, c, |p|, k) as real)
  {
    MassesScale(log, p, total);
    PriceScales(c, HitSums(log, |p|), Masses(p), total);
    ContentionIsPrice(log, HitCounts(log, |p|), HitSums(log, |p|), c, k, k);
    assert c[..k + 1] == c;
  }

  lemma MassesScale(log: seq<Span>, p: seq<real>, total: real)
    requires Shares(log, p, total)
    ensures Scaled(HitSums(log, |p|), Masses(p), total)
  {
    forall n: nat | n <= |p| ensures Scales(Masses(p)[n], total, HitSums(log, |p|)[n] as real) {
      ShareSum(log, p, total, n);
    }
  }

  ghost function HitCounts(log: seq<Span>, r: nat): (stats: seq<nat>)
    ensures |stats| == r && HitsOf(log, stats)
  {
    seq(r, (b: nat) => Hits(log, b))
  }

  ghost function HitSums(log: seq<Span>, r: nat): (prefix: seq<nat>)
    ensures IsPrefixSum(prefix, HitCounts(log, r))
  {
    seq(r + 1, (n: nat) => TotalHits(log, n))
  }
}
