/** Moving a cut vector towards another one by bounded steps, as intended and as computed. */
module BoundedMoves {
  import opened Cuts
  import opened Chromosomes

  // ----- the intended move -----

  /** One cut moved towards its target by at most s. */
  function Toward(x: nat, y: nat, s: nat): nat {
    if x < y then (if y - x <= s then y else x + s) else (if x - y <= s then y else x - s)
  }

  function Towards(c: seq<nat>, d: seq<nat>, s: nat): (e: seq<nat>)
    requires |c| == |d|
    ensures |e| == |c|
  {
    seq(|c|, (i: nat) requires i < |c| => Toward(c[i], d[i], s))
  }

  function Gap(x: nat, y: nat): nat { if x < y then y - x else x - y }

  function Distance(c: seq<nat>, d: seq<nat>): nat
    requires |c| == |d|
  {
    if c == [] then 0
    else
      var rest, last := Distance(c[..|c| - 1], d[..|c| - 1]), Gap(c[|c| - 1], d[|c| - 1]);
      if rest < last then last else rest
  }

  lemma TowardsKeepsValid(c: seq<nat>, d: seq<nat>, k: nat, r: nat, s: nat)
    requires ValidCuts(c, k, r) && ValidCuts(d, k, r)
    ensures ValidCuts(Towards(c, d, s), k, r)
  {
  }

  /** A move takes s off the largest distance still to go. */
  lemma {:induction false} MoveShrinksDistance(c: seq<nat>, d: seq<nat>, s: nat)
    requires |c| == |d|
    ensures Distance(Towards(c, d, s), d) == if Distance(c, d) <= s then 0 else Distance(c, d) - s
  {
    if c != [] {
      var m := |c| - 1;
      MoveShrinksDistance(c[..m], d[..m], s);
      assert Towards(c, d, s)[..m] == Towards(c[..m], d[..m], s);
    }
  }

  lemma {:induction false} ZeroDistance(c: seq<nat>, d: seq<nat>)
    requires |c| == |d|
    ensures Distance(c, d) == 0 <==> c == d
  {
    if c != [] {
      var m := |c| - 1;
      ZeroDistance(c[..m], d[..m]);
      assert c == c[..m] + [c[m]] && d == d[..m] + [d[m]];
    }
  }

  function Moves(c: seq<nat>, d: seq<nat>, s: nat, n: nat): (e: seq<nat>)
    requires |c| == |d|
    ensures |e| == |c|
  {
    if n == 0 then c else Towards(Moves(c, d, s, n - 1), d, s)
  }

  lemma {:induction false} MovesShrink(c: seq<nat>, d: seq<nat>, s: nat, n: nat)
    requires |c| == |d|
    ensures Distance(Moves(c, d, s, n), d) == if Distance(c, d) <= n * s then 0 else Distance(c, d) - n * s
  {
    if n > 0 {
      MovesShrink(c, d, s, n - 1);
      MoveShrinksDistance(Moves(c, d, s, n - 1), d, s);
      assert n * s == (n - 1) * s + s;
    }
  }

  /** The distance divided by the step, rounded up. */
  function MovesNeeded(c: seq<nat>, d: seq<nat>, s: nat): nat
    requires |c| == |d| && s > 0
  {
    (Distance(c, d) + s - 1) / s
  }

  /** That many intended moves reach the target, and no fewer. */
  lemma MovesArrive(c: seq<nat>, d: seq<nat>, s: nat, n: nat)
    requires |c| == |d| && s > 0
    ensures Moves(c, d, s, n) == d <==> n >= MovesNeeded(c, d, s)
  {
    MovesShrink(c, d, s, n);
    ZeroDistance(Moves(c, d, s, n), d);
    CeilingBound(Distance(c, d), s, n);
  }

  lemma CeilingBound(x: nat, s: nat, n: nat)
    requires s > 0
    ensures x <= n * s <==> n >= (x + s - 1) / s
  {
    var q := (x + s - 1) / s;
    assert q * s <= x + s - 1 < q * s + s;
    if n >= q { MulMonotone(q, n, s); } else { MulMonotone(n + 1, q, s); }
  }

  // ----- the computed move -----

  /** One cut as computed: the sum is that of 64-bit words. */
  function StepCut(x: nat, y: nat, s: nat): (z: nat)
    requires x < U64 && y < U64
    ensures z < U64
  {
    if x < y then
      var sum := (x + s) % U64;
      if sum < y then sum else y
    else
      var lower := if x > s then x - s else 1;
      if lower < y then y else lower
  }

  ghost predicate Words(c: seq<nat>) {
    forall i :: 0 <= i < |c| ==> c[i] < U64
  }

  lemma CutsAreWords(c: seq<nat>, k: nat, r: nat)
    requires ValidCuts(c, k, r) && r < U64
    ensures Words(c)
  {
    forall i | 0 <= i < |c| ensures c[i] < U64 { assert i < k ==> c[i] < c[k]; }
  }

  /** The inner cuts before the repair. */
  function RawCuts(c: seq<nat>, d: seq<nat>, s: nat): (v: seq<nat>)
    requires |c| == |d| >= 2 && Words(c) && Words(d)
    ensures |v| == |c| - 2
  {
    seq(|c| - 2, (i: nat) requires i < |c| - 2 => StepCut(c[i + 1], d[i + 1], s))
  }

  /** The result of one call. */
  function Moved(c: seq<nat>, d: seq<nat>, s: nat, r: nat): (e: seq<nat>)
    requires |c| == |d| >= 2 && Words(c) && Words(d) && |c| - 2 < r
    ensures |e| == |c|
  {
    if c == d then c else [0] + Repair(RawCuts(c, d, s), r) + [r]
  }

  /** Inner cuts between the ends, and back. */
  lemma EndsAdded(v: seq<nat>, k: nat, r: nat)
    requires InternalCuts(v, r) && |v| == k - 1 && r > 0
    ensures ValidCuts([0] + v + [r], k, r)
  {
    var c := [0] + v + [r];
    forall m {:trigger c[m + 1]} | 0 <= m < |c| - 1 ensures c[m] < c[m + 1] {}
    forall i, j | 0 <= i < j <= k ensures c[i] < c[j] { GrowingIsIncreasing(c, i, j); }
  }

  lemma EndsTaken(c: seq<nat>, k: nat, r: nat)
    requires ValidCuts(c, k, r) && k >= 1
    ensures InternalCuts(c[1..k], r) && c == [0] + c[1..k] + [r]
  {
    forall i | 0 <= i < k - 1 ensures 1 <= c[1..k][i] < r { assert c[0] < c[i + 1] < c[k]; }
  }

  /** Whatever the step, the result is valid. */
  lemma MovedIsValid(c: seq<nat>, d: seq<nat>, k: nat, r: nat, s: nat)
    requires ValidCuts(c, k, r) && ValidCuts(d, k, r) && 1 <= k <= r < U64 && Words(c) && Words(d)
    ensures ValidCuts(Moved(c, d, s, r), k, r)
  {
    if c != d {
      Repaired(RawCuts(c, d, s), r);
      EndsAdded(Repair(RawCuts(c, d, s), r), k, r);
    }
  }

  /** The 64-bit sum of a cut and the step wraps around. */
  predicate Wraps(x: nat, y: nat, s: nat) { x < y && x + s >= U64 }

  ghost predicate Fits(c: seq<nat>, d: seq<nat>, s: nat) {
    |c| == |d| && forall i :: 0 <= i < |c| ==> !Wraps(c[i], d[i], s)
  }

  /** A cut that wraps falls back behind its start, any other one is moved as intended. */
  lemma StepIsToward(x: nat, y: nat, s: nat)
    requires x < U64 && 1 <= y < U64 && s < U64
    ensures Wraps(x, y, s) ==> StepCut(x, y, s) < x < y == Toward(x, y, s)
    ensures !Wraps(x, y, s) ==> StepCut(x, y, s) == Toward(x, y, s)
  {
    if Wraps(x, y, s) { assert (x + s) % U64 == x + s - U64; }
  }

  /** What the computed inner cut is to the intended one. */
  lemma RawCut(c: seq<nat>, d: seq<nat>, k: nat, r: nat, s: nat, i: nat)
    requires ValidCuts(c, k, r) && ValidCuts(d, k, r) && 0 < i < k <= r < U64 && s < U64 && Words(c) && Words(d)
    ensures RawCuts(c, d, s)[i - 1] <= Towards(c, d, s)[i]
    ensures RawCuts(c, d, s)[i - 1] == Towards(c, d, s)[i] <==> !Wraps(c[i], d[i], s)
    ensures Wraps(c[i], d[i], s) ==> Towards(c, d, s)[i] == d[i]
  {
    assert d[0] < d[i];
    StepIsToward(c[i], d[i], s);
  }

  /** The ends are where they belong. */
  lemma EndsStay(c: seq<nat>, d: seq<nat>, k: nat, r: nat, s: nat, i: nat)
    requires ValidCuts(c, k, r) && ValidCuts(d, k, r) && i <= k
    ensures Wraps(c[i], d[i], s) ==> 0 < i < k
  {
  }

  /** The inner cuts are those of the intended move exactly if no sum wraps around. */
  lemma RawCutsIntended(c: seq<nat>, d: seq<nat>, k: nat, r: nat, s: nat)
    requires ValidCuts(c, k, r) && ValidCuts(d, k, r) && 1 <= k <= r < U64 && s < U64 && Words(c) && Words(d)
    ensures [0] + RawCuts(c, d, s) + [r] == Towards(c, d, s) <==> Fits(c, d, s)
    ensures Fits(c, d, s) ==> Repair(RawCuts(c, d, s), r) == RawCuts(c, d, s)
  {
    TowardsKeepsValid(c, d, k, r, s);
    RawOrWraps(c, d, k, r, s, RawCuts(c, d, s), Towards(c, d, s));
    if Fits(c, d, s) { Repaired(RawCuts(c, d, s), r); }
  }

  lemma RawOrWraps(c: seq<nat>, d: seq<nat>, k: nat, r: nat, s: nat, raw: seq<nat>, t: seq<nat>)
    requires ValidCuts(c, k, r) && ValidCuts(d, k, r) && 1 <= k <= r < U64 && s < U64 && Words(c) && Words(d)
    requires raw == RawCuts(c, d, s) && t == Towards(c, d, s) && ValidCuts(t, k, r)
    ensures [0] + raw + [r] == t <==> Fits(c, d, s)
    ensures Fits(c, d, s) ==> InternalCuts(raw, r)
  {
    EndsTaken(t, k, r);
    if Fits(c, d, s) {
      forall j | 0 <= j < k - 1 ensures raw[j] == t[1..k][j] { RawCut(c, d, k, r, s, j + 1); }
      assert raw == t[1..k];
    } else {
      var i :| 0 <= i < |c| && Wraps(c[i], d[i], s);
      EndsStay(c, d, k, r, s, i);
      RawCut(c, d, k, r, s, i);
      InnerCut(raw, r, i);
    }
  }

  lemma InnerCut(v: seq<nat>, r: nat, i: nat)
    requires 0 < i <= |v|
    ensures ([0] + v + [r])[i] == v[i - 1]
  {
  }

  /** If inner cut j + 1 wraps, it still lands above the one before it. */
  ghost predicate StaysAbove(c: seq<nat>, d: seq<nat>, s: nat, j: nat)
    requires |c| == |d| >= 2 && Words(c) && Words(d) && j < |c| - 2
  {
    var raw := RawCuts(c, d, s);
    Wraps(c[j + 1], d[j + 1], s) ==> raw[j] > if j == 0 then 0 else raw[j - 1]
  }

  /** The inner cuts need no repair exactly if every one that wraps still lands above the one before it. */
  lemma NoRepairNeeded(c: seq<nat>, d: seq<nat>, k: nat, r: nat, s: nat)
    requires ValidCuts(c, k, r) && ValidCuts(d, k, r) && 1 <= k <= r < U64 && s < U64 && Words(c) && Words(d)
    ensures Repair(RawCuts(c, d, s), r) == RawCuts(c, d, s) <==> forall j :: 0 <= j < k - 1 ==> StaysAbove(c, d, s, j)
  {
    var raw, t := RawCuts(c, d, s), Towards(c, d, s);
    TowardsKeepsValid(c, d, k, r, s);
    forall j | 0 <= j < k - 1 ensures raw[j] < r && (StaysAbove(c, d, s, j) <==> Above(raw, j)) {
      StaysAboveIsAbove(c, d, k, r, s, j, t);
    }
    Repaired(raw, r);
    AboveIsInternal(raw, r);
  }

  /** Entry j lies above the one before it. */
  predicate Above(v: seq<nat>, j: nat)
    requires j < |v|
  {
    v[j] > if j == 0 then 0 else v[j - 1]
  }

  lemma StaysAboveIsAbove(c: seq<nat>, d: seq<nat>, k: nat, r: nat, s: nat, j: nat, t: seq<nat>)
    requires ValidCuts(c, k, r) && ValidCuts(d, k, r) && 1 <= k <= r < U64 && s < U64 && Words(c) && Words(d)
    requires j < k - 1 && t == Towards(c, d, s) && ValidCuts(t, k, r)
    ensures RawCuts(c, d, s)[j] < r && (StaysAbove(c, d, s, j) <==> Above(RawCuts(c, d, s), j))
  {
    RawCut(c, d, k, r, s, j + 1);
    if j > 0 { RawCut(c, d, k, r, s, j); }
    assert t[j] < t[j + 1] <= t[k];
  }

  lemma AboveIsInternal(v: seq<nat>, r: nat)
    requires forall j :: 0 <= j < |v| ==> v[j] < r
    ensures InternalCuts(v, r) <==> forall j {:trigger Above(v, j)} :: 0 <= j < |v| ==> Above(v, j)
  {
    if forall j {:trigger Above(v, j)} :: 0 <= j < |v| ==> Above(v, j) {
      forall i, j | 0 <= i < j < |v| ensures v[i] < v[j] { AboveEarlier(v, i, j); }
      forall i | 0 <= i < |v| ensures 1 <= v[i] { assert Above(v, i); }
    }
  }

  lemma {:induction false} AboveEarlier(v: seq<nat>, i: nat, j: nat)
    requires i < j < |v| && forall m {:trigger Above(v, m)} :: 0 <= m < |v| ==> Above(v, m)
    ensures v[i] < v[j]
  {
    assert Above(v, j);
    if i < j - 1 { AboveEarlier(v, i, j - 1); }
  }

  /** A sum may wrap, the inner cuts need no repair, and the result not be the intended one. */
  lemma WrapsUnrepaired(c: seq<nat>, d: seq<nat>, s: nat)
    requires c == [0, 5, 10] && d == [0, 7, 10] && s == U64 - 3
    ensures ValidCutsOf(c, 2, 10) && ValidCutsOf(d, 2, 10) && !Fits(c, d, s)
    ensures Repair(RawCuts(c, d, s), 10) == RawCuts(c, d, s) == [2] && Moved(c, d, s, 10) != Towards(c, d, s)
  {
    assert (5 + s) % U64 == 2;
    var raw := RawCuts(c, d, s);
    assert raw == [2];
    Repaired(raw, 10);
    assert Moved(c, d, s, 10)[1] == 2 && Towards(c, d, s)[1] == 7;
    assert Wraps(c[1], d[1], s);
  }

  /** A cut that wraps does no harm if the cut before it ends up right below its target, for then the repair
      pushes it there. */
  ghost predicate Harmless(c: seq<nat>, d: seq<nat>, s: nat)
    requires |c| == |d|
  {
    forall i :: 0 < i < |c| && Wraps(c[i], d[i], s) ==> d[i] == Toward(c[i - 1], d[i - 1], s) + 1
  }

  /** The result of a call is the intended move if and only if every cut that wraps is harmless. */
  lemma MovedIsTowards(c: seq<nat>, d: seq<nat>, k: nat, r: nat, s: nat)
    requires ValidCuts(c, k, r) && ValidCuts(d, k, r) && 1 <= k <= r < U64 && s < U64 && Words(c) && Words(d)
    ensures Moved(c, d, s, r) == Towards(c, d, s) <==> Harmless(c, d, s)
  {
    var raw, t := RawCuts(c, d, s), Towards(c, d, s);
    TowardsKeepsValid(c, d, k, r, s);
    EndsTaken(t, k, r);
    if c == d {
      assert t == c;
    } else {
      forall j | 0 <= j < k - 1 ensures raw[j] <= t[1..k][j] { RawCut(c, d, k, r, s, j + 1); }
      RepairRestores(raw, t[1..k], r);
      HarmlessIsRestorable(c, d, k, r, s, raw, t);
      EndsMatch(Repair(raw, r), t[1..k], r);
    }
  }

  lemma EndsMatch(v: seq<nat>, w: seq<nat>, r: nat)
    requires |v| == |w|
    ensures [0] + v + [r] == [0] + w + [r] <==> v == w
  {
    if [0] + v + [r] == [0] + w + [r] {
      assert v == ([0] + v + [r])[1..|v| + 1] == w;
    }
  }

  lemma HarmlessIsRestorable(c: seq<nat>, d: seq<nat>, k: nat, r: nat, s: nat, raw: seq<nat>, t: seq<nat>)
    requires ValidCuts(c, k, r) && ValidCuts(d, k, r) && 1 <= k <= r < U64 && s < U64 && Words(c) && Words(d)
    requires raw == RawCuts(c, d, s) && t == Towards(c, d, s)
    ensures Harmless(c, d, s) <==> forall j :: 0 <= j < |raw| ==> Restorable(raw, t[1..k], j)
  {
    var inner := t[1..k];
    forall i | 0 < i < k
      ensures Restorable(raw, inner, i - 1) <==> (Wraps(c[i], d[i], s) ==> d[i] == Toward(c[i - 1], d[i - 1], s) + 1)
    {
      RawCut(c, d, k, r, s, i);
      assert inner[i - 1] == t[i] && (i > 1 ==> inner[i - 2] == t[i - 1]);
      assert c[0] == d[0] == 0;
      if !Wraps(c[i], d[i], s) { assert raw[i - 1] == t[i]; }
    }
    if forall j :: 0 <= j < |raw| ==> Restorable(raw, inner, j) {
      forall i | 0 < i < |c| && Wraps(c[i], d[i], s) ensures d[i] == Toward(c[i - 1], d[i - 1], s) + 1 {
        EndsStay(c, d, k, r, s, i);
        assert Restorable(raw, inner, i - 1);
      }
    }
    if Harmless(c, d, s) {
      forall j | 0 <= j < |raw| ensures Restorable(raw, inner, j) {
        var i := j + 1;
        assert Restorable(raw, inner, i - 1);
      }
    }
  }

  /** A call that does what is intended keeps the cuts valid, moves none past its target or further than the
      step, and takes the step off the largest distance still to go. */
  lemma BoundedMove(c: seq<nat>, d: seq<nat>, k: nat, r: nat, s: nat)
    requires ValidCuts(c, k, r) && ValidCuts(d, k, r) && 1 <= k <= r < U64 && s < U64 && Words(c) && Words(d)
    requires Harmless(c, d, s)
    ensures var m := Moved(c, d, s, r);
            && ValidCuts(m, k, r)
            && (forall i :: 0 <= i < |c| ==> Between(c[i], m[i], d[i]) && Gap(c[i], m[i]) <= s)
            && Distance(m, d) == if Distance(c, d) <= s then 0 else Distance(c, d) - s
  {
    MovedIsTowards(c, d, k, r, s);
    MovedIsValid(c, d, k, r, s);
    MoveShrinksDistance(c, d, s);
    NeverOvershoots(c, d, s);
  }

  predicate Between(x: nat, y: nat, z: nat) { x <= y <= z || z <= y <= x }

  lemma NeverOvershoots(c: seq<nat>, d: seq<nat>, s: nat)
    requires |c| == |d|
    ensures var t := Towards(c, d, s); forall i :: 0 <= i < |c| ==> Between(c[i], t[i], d[i]) && Gap(c[i], t[i]) <= s
  {
  }

  // ----- repeated calls -----

  ghost predicate ValidCutsOf(c: seq<nat>, k: nat, r: nat) {
    ValidCuts(c, k, r) && 1 <= k <= r < U64 && Words(c)
  }

  ghost predicate IsCall(c: seq<nat>, e: seq<nat>, d: seq<nat>, s: nat, k: nat, r: nat) {
    ValidCutsOf(c, k, r) && ValidCutsOf(d, k, r) && e == Moved(c, d, s, r)
  }

  /** The cuts before, between and after some calls with the same target. */
  ghost predicate AreCalls(cs: seq<seq<nat>>, d: seq<nat>, s: nat, k: nat, r: nat) {
    && cs != [] && ValidCutsOf(cs[0], k, r) && ValidCutsOf(d, k, r)
    && forall i {:trigger IsCall(cs[i], cs[i + 1], d, s, k, r)} :: 0 <= i < |cs| - 1 ==> IsCall(cs[i], cs[i + 1], d, s, k, r)
  }

  /** That many calls reach the target if and only if every cut that wraps in the first of them is harmless.
      Fewer never do, and more do not leave it.  No vector has an entry for more than
      2^63 blocks. */
  lemma CallsArrive(cs: seq<seq<nat>>, d: seq<nat>, s: nat, k: nat, r: nat)
    requires AreCalls(cs, d, s, k, r) && 0 < s < U64 && (r + s <= U64 || 2 * r <= U64)
    requires MovesNeeded(cs[0], d, s) < |cs|
    ensures cs[MovesNeeded(cs[0], d, s)] == d <==> Harmless(cs[0], d, s)
    ensures forall n: nat :: n < MovesNeeded(cs[0], d, s) ==> cs[n] != d
    ensures Harmless(cs[0], d, s) ==> forall n: nat :: MovesNeeded(cs[0], d, s) <= n < |cs| ==> cs[n] == d
  {
    var q := MovesNeeded(cs[0], d, s);
    if r + s <= U64 {
      SmallStepsFit(cs[0], d, k, r, s);
      forall n: nat | n < |cs| ensures cs[n] == d <==> n >= q { SmallCallsArrive(cs, d, s, k, r, n); }
    } else {
      OneCallDecides(cs, d, s, k, r);
      if cs[q] == d {
        forall n: nat | q <= n < |cs| ensures cs[n] == d { TargetStays(cs, d, s, k, r, q, n); }
      }
    }
  }

  lemma OneCallDecides(cs: seq<seq<nat>>, d: seq<nat>, s: nat, k: nat, r: nat)
    requires AreCalls(cs, d, s, k, r) && s < U64 < r + s && 2 * r <= U64 && MovesNeeded(cs[0], d, s) < |cs|
    ensures MovesNeeded(cs[0], d, s) == if cs[0] == d then 0 else 1
    ensures cs[MovesNeeded(cs[0], d, s)] == d <==> Harmless(cs[0], d, s)
  {
    var c := cs[0];
    SpansAll(c, d, s, k, r);
    if c != d {
      assert IsCall(cs[0], cs[1], d, s, k, r);
      MoveShrinksDistance(c, d, s);
      ZeroDistance(Towards(c, d, s), d);
      MovedIsTowards(c, d, k, r, s);
    }
  }

  /** A step too large for the sums to stay below 2^64 spans every distance. */
  lemma SpansAll(c: seq<nat>, d: seq<nat>, s: nat, k: nat, r: nat)
    requires ValidCutsOf(c, k, r) && ValidCutsOf(d, k, r) && s < U64 < r + s && 2 * r <= U64
    ensures Distance(c, d) <= s && MovesNeeded(c, d, s) == if c == d then 0 else 1
  {
    ZeroDistance(c, d);
    DistanceWithin(c, d, r);
    CeilingBound(Distance(c, d), s, 0);
    CeilingBound(Distance(c, d), s, 1);
  }

  lemma {:induction false} DistanceWithin(c: seq<nat>, d: seq<nat>, r: nat)
    requires |c| == |d| && forall i :: 0 <= i < |c| ==> c[i] <= r && d[i] <= r
    ensures Distance(c, d) <= r
  {
    if c != [] { DistanceWithin(c[..|c| - 1], d[..|c| - 1], r); }
  }

  lemma {:induction false} TargetStays(cs: seq<seq<nat>>, d: seq<nat>, s: nat, k: nat, r: nat, m: nat, n: nat)
    requires AreCalls(cs, d, s, k, r) && m <= n < |cs| && cs[m] == d
    ensures cs[n] == d
  {
    if m < n {
      var i := n - 1;
      TargetStays(cs, d, s, k, r, m, i);
      assert IsCall(cs[i], cs[i + 1], d, s, k, r);
    }
  }

  /** With a step that leaves room for the cuts below 2^64 calls are intended moves. */
  lemma SmallCallsArrive(cs: seq<seq<nat>>, d: seq<nat>, s: nat, k: nat, r: nat, n: nat)
    requires AreCalls(cs, d, s, k, r) && n < |cs| && s > 0 && r + s <= U64
    ensures cs[n] == d <==> n >= MovesNeeded(cs[0], d, s)
  {
    CallsAreMoves(cs, d, s, k, r, n);
    MovesArrive(cs[0], d, s, n);
  }

  lemma {:induction false} CallsAreMoves(cs: seq<seq<nat>>, d: seq<nat>, s: nat, k: nat, r: nat, n: nat)
    requires AreCalls(cs, d, s, k, r) && n < |cs| && s > 0 && r + s <= U64
    ensures cs[n] == Moves(cs[0], d, s, n)
  {
    if n > 0 {
      var m := n - 1;
      CallsAreMoves(cs, d, s, k, r, m);
      assert IsCall(cs[m], cs[m + 1], d, s, k, r);
      OneSmallCall(cs[m], cs[n], d, s, k, r);
    }
  }

  lemma OneSmallCall(c: seq<nat>, e: seq<nat>, d: seq<nat>, s: nat, k: nat, r: nat)
    requires IsCall(c, e, d, s, k, r) && s > 0 && r + s <= U64
    ensures e == Towards(c, d, s)
  {
    SmallStepsFit(c, d, k, r, s);
    MovedIsTowards(c, d, k, r, s);
  }

  lemma SmallStepsFit(c: seq<nat>, d: seq<nat>, k: nat, r: nat, s: nat)
    requires ValidCuts(c, k, r) && ValidCuts(d, k, r) && r + s <= U64
    ensures Fits(c, d, s)
  {
    forall i | 0 <= i < |c| ensures !Wraps(c[i], d[i], s) { assert i < k ==> d[i] < d[k]; }
  }

  /** With a step of one less than 2^64 a call may return where it started, and then no number of calls arrives. */
  lemma {:induction false} NeverArrives(cs: seq<seq<nat>>, d: seq<nat>, s: nat, n: nat)
    requires AreCalls(cs, d, s, 2, 3) && n < |cs| && cs[0] == [0, 1, 3] && d == [0, 2, 3] && s == U64 - 1
    ensures cs[n] == cs[0] != d && !Harmless(cs[0], d, s)
  {
    if n == 0 {
      assert Wraps(cs[0][1], d[1], s);
    } else {
      var m := n - 1;
      NeverArrives(cs, d, s, m);
      assert IsCall(cs[m], cs[m + 1], d, s, 2, 3);
      StallsAtOnce(cs[0], d, s);
    }
  }

  lemma StallsAtOnce(c: seq<nat>, d: seq<nat>, s: nat)
    requires c == [0, 1, 3] && d == [0, 2, 3] && s == U64 - 1
    ensures Words(c) && Words(d) && Moved(c, d, s, 3) == c
  {
    var raw := RawCuts(c, d, s);
    assert (1 + s) % U64 == 0;
    assert raw == [0];
    assert ClampedFirst(raw, 3) == [1];
    assert BoundedBack([1], 3) == [1];
  }

  /** A sum may wrap and the result be the intended one all the same. */
  lemma WrapsUnharmed(c: seq<nat>, d: seq<nat>, s: nat)
    requires c == [0, 1, 5, 10] && d == [0, 6, 7, 10] && s == U64 - 5
    ensures ValidCutsOf(c, 3, 10) && ValidCutsOf(d, 3, 10)
    ensures !Fits(c, d, s) && Moved(c, d, s, 10) == Towards(c, d, s)
  {
    assert Wraps(c[2], d[2], s);
    MovedIsTowards(c, d, 3, 10, s);
  }
}
