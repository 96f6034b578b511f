/** Which repeated moves reach their target at all, and after how many calls. */
module Arrivals {
  import opened Cuts
  import opened Chromosomes
  import opened BoundedMoves

  /** How far a cut that wraps falls back. */
  function Fall(s: nat): (g: nat)
    requires s < U64
  {
    U64 - s
  }

  /** A step too large for the sums to stay below 2^64; it spans every distance. */
  predicate Spans(s: nat, r: nat) { s < U64 < r + s && 2 * r <= U64 }

  /** Cut j wraps, and the repair does not push it to its target. */
  predicate Harmful(c: seq<nat>, d: seq<nat>, s: nat, j: nat) {
    0 < j < |c| == |d| && Wraps(c[j], d[j], s) && d[j] != d[j - 1] + 1
  }

  /** The cuts from a to j wrap together, fall equally often, and have room to get below the fall behind the
      target of the cut before them. */
  ghost predicate FallTogether(c: seq<nat>, d: seq<nat>, s: nat, a: nat, j: nat) {
    && 0 < a <= j < |c| == |d| && s < U64
    && (forall i :: a <= i <= j ==> Wraps(c[i], d[i], s))
    && d[a - 1] + 1 + (j - a) < Fall(s) && c[a] / Fall(s) == c[j] / Fall(s)
  }

  ghost predicate Unharmed(c: seq<nat>, d: seq<nat>, s: nat) {
    forall j: nat :: !Harmful(c, d, s, j)
  }

  ghost predicate Recovers(c: seq<nat>, d: seq<nat>, s: nat) {
    forall j: nat :: Harmful(c, d, s, j) ==> exists a: nat :: FallTogether(c, d, s, a, j)
  }

  // ----- one call -----

  /** Cut j before the repair. */
  function Landed(c: seq<nat>, d: seq<nat>, s: nat, j: nat): nat
    requires j < |c| == |d| && s < U64
  {
    if Wraps(c[j], d[j], s) then c[j] - Fall(s) else d[j]
  }

  /** What a call does to an inner cut. */
  ghost predicate Lands(c: seq<nat>, e: seq<nat>, d: seq<nat>, s: nat, j: nat) {
    && 0 < j < |c| == |d| == |e| && s < U64
    && e[j] <= d[j] && e[j] == Greater(Landed(c, d, s, j), e[j - 1] + 1)
  }

  lemma LandedIsRaw(x: nat, y: nat, s: nat, r: nat)
    requires Spans(s, r) && x < r && 1 <= y < r
    ensures StepCut(x, y, s) == if Wraps(x, y, s) then x - Fall(s) else y
  {
    if Wraps(x, y, s) { assert (x + s) % U64 == x + s - U64; }
  }

  lemma RawLands(c: seq<nat>, d: seq<nat>, s: nat, k: nat, r: nat, j: nat)
    requires ValidCutsOf(c, k, r) && ValidCutsOf(d, k, r) && Spans(s, r) && 0 < j < k
    ensures RawCuts(c, d, s)[j - 1] == Landed(c, d, s, j) <= d[j]
  {
    assert c[j] < c[k] && d[0] < d[j] < d[k];
    LandedIsRaw(c[j], d[j], s, r);
  }

  lemma RawBelow(c: seq<nat>, d: seq<nat>, s: nat, k: nat, r: nat, v: seq<nat>, t: seq<nat>)
    requires ValidCutsOf(c, k, r) && ValidCutsOf(d, k, r) && Spans(s, r) && v == RawCuts(c, d, s) && t == d[1..k]
    ensures |v| == |t| && forall i :: 0 <= i < |t| ==> v[i] <= t[i]
  {
    forall i | 0 <= i < |t| ensures v[i] <= t[i] { RawLands(c, d, s, k, r, i + 1); }
  }

  lemma CallLands(c: seq<nat>, e: seq<nat>, d: seq<nat>, s: nat, k: nat, r: nat, j: nat)
    requires IsCall(c, e, d, s, k, r) && Spans(s, r) && 0 < j < k
    ensures Lands(c, e, d, s, j)
  {
    if c == d {
      assert d[j - 1] < d[j];
    } else {
      var raw := RawCuts(c, d, s);
      EndsTaken(d, k, r);
      InnerLifted(c, d, s, k, r, j, raw, d[1..k]);
      RepairedLands(c, e, d, s, k, r, j, raw, Repair(raw, r));
    }
  }

  lemma InnerLifted(c: seq<nat>, d: seq<nat>, s: nat, k: nat, r: nat, j: nat, raw: seq<nat>, t: seq<nat>)
    requires ValidCutsOf(c, k, r) && ValidCutsOf(d, k, r) && Spans(s, r) && 0 < j < k
    requires raw == RawCuts(c, d, s) && t == d[1..k] && InternalCuts(t, r)
    ensures Lifted(raw, Repair(raw, r), t, j - 1)
  {
    RawBelow(c, d, s, k, r, raw, t);
    RepairLifts(raw, t, r, j - 1);
  }

  lemma RepairLifts(v: seq<nat>, t: seq<nat>, r: nat, i: nat)
    requires InternalCuts(t, r) && |v| == |t| < r < U64 && i < |v| && forall j :: 0 <= j < |t| ==> v[j] <= t[j]
    ensures Lifted(v, Repair(v, r), t, i)
  {
    RepairBelow(v, t, r);
  }

  lemma RepairedLands(c: seq<nat>, e: seq<nat>, d: seq<nat>, s: nat, k: nat, r: nat, j: nat, raw: seq<nat>, w: seq<nat>)
    requires ValidCutsOf(c, k, r) && ValidCutsOf(d, k, r) && Spans(s, r) && 0 < j < k
    requires raw == RawCuts(c, d, s) && Lifted(raw, w, d[1..k], j - 1) && e == [0] + w + [r]
    ensures Lands(c, e, d, s, j)
  {
    RawLands(c, d, s, k, r, j);
    InnerCut(w, r, j);
    if j > 1 { InnerCut(w, r, j - 1); }
  }

  /** Before, after and target of a call with a step that spans every distance. */
  ghost predicate SpanningCall(c: seq<nat>, e: seq<nat>, d: seq<nat>, s: nat, k: nat, r: nat) {
    && Spans(s, r) && k >= 1 && ValidCuts(c, k, r) && ValidCuts(d, k, r) && ValidCuts(e, k, r)
    && forall j {:trigger Lands(c, e, d, s, j)} :: 0 < j < k ==> Lands(c, e, d, s, j)
  }

  lemma CallSpans(c: seq<nat>, e: seq<nat>, d: seq<nat>, s: nat, k: nat, r: nat)
    requires IsCall(c, e, d, s, k, r) && Spans(s, r)
    ensures SpanningCall(c, e, d, s, k, r)
  {
    MovedIsValid(c, d, k, r, s);
    forall j | 0 < j < k ensures Lands(c, e, d, s, j) { CallLands(c, e, d, s, k, r, j); }
  }

  /** No cut ends up past its target, and one that did not wrap ends up there. */
  lemma ComesClose(c: seq<nat>, e: seq<nat>, d: seq<nat>, s: nat, k: nat, r: nat, j: nat)
    requires SpanningCall(c, e, d, s, k, r) && j <= k
    ensures e[j] <= d[j] && (!Wraps(c[j], d[j], s) ==> e[j] == d[j])
    ensures Wraps(c[j], d[j], s) ==> 0 < j < k
  {
    if 0 < j < k { assert Lands(c, e, d, s, j); }
  }

  lemma {:induction false} Apart(c: seq<nat>, k: nat, r: nat, i: nat, j: nat)
    requires ValidCuts(c, k, r) && i <= j <= k
    ensures c[j] >= c[i] + (j - i)
  {
    if i < j { Apart(c, k, r, i, j - 1); }
  }

  /** If the first of some cuts that wrap is not pushed, none is. */
  lemma {:induction false} FallFreely(c: seq<nat>, e: seq<nat>, d: seq<nat>, s: nat, k: nat, r: nat, a: nat, j: nat)
    requires SpanningCall(c, e, d, s, k, r) && 0 < a <= j < k && forall i :: a <= i <= j ==> Wraps(c[i], d[i], s)
    requires c[a] >= Fall(s) + e[a - 1] + 1
    ensures e[j] == c[j] - Fall(s)
  {
    assert Lands(c, e, d, s, j);
    if a < j { FallFreely(c, e, d, s, k, r, a, j - 1); }
  }

  /** How high some cuts that wrap can be pushed. */
  lemma {:induction false} FallLow(c: seq<nat>, e: seq<nat>, d: seq<nat>, s: nat, k: nat, r: nat, a: nat, j: nat)
    requires SpanningCall(c, e, d, s, k, r) && 0 < a <= j < k && forall i :: a <= i <= j ==> Wraps(c[i], d[i], s)
    ensures e[j] <= d[a - 1] + 1 + (j - a) || e[j] + Fall(s) <= c[j]
  {
    assert Lands(c, e, d, s, j);
    if a < j { FallLow(c, e, d, s, k, r, a, j - 1); } else { ComesClose(c, e, d, s, k, r, a - 1); }
  }

  /** The first of the cuts up to j that all wrap. */
  lemma {:induction false} FirstToWrap(c: seq<nat>, d: seq<nat>, s: nat, k: nat, r: nat, j: nat) returns (a: nat)
    requires ValidCuts(c, k, r) && ValidCuts(d, k, r) && 0 < j < k && Wraps(c[j], d[j], s)
    ensures 0 < a <= j && (forall i :: a <= i <= j ==> Wraps(c[i], d[i], s)) && !Wraps(c[a - 1], d[a - 1], s)
  {
    a := j;
    if Wraps(c[j - 1], d[j - 1], s) {
      assert c[0] == d[0];
      a := FirstToWrap(c, d, s, k, r, j - 1);
    }
  }

  lemma FallsOnce(x: nat, g: nat)
    requires 0 < g <= x
    ensures x / g >= 1 && (x - g) / g == x / g - 1
    ensures x < 2 * g <==> x / g == 1
  {
    Divided(x, g);
    Divided(x - g, g);
    var p, q := (x - g) / g, x / g;
    assert (p + 1) * g == p * g + g;
    SameQuotient(x, g, p + 1, q);
    if x < 2 * g { SameQuotient(x, g, 1, q); }
  }

  lemma Divided(x: nat, g: nat)
    requires g > 0
    ensures x / g * g <= x < x / g * g + g
  {
  }

  lemma SameQuotient(x: nat, g: nat, p: nat, q: nat)
    requires g > 0 && p * g <= x < p * g + g && q * g <= x < q * g + g
    ensures p == q
  {
    if p < q { MulMonotone(p + 1, q, g); }
    if q < p { MulMonotone(q + 1, p, g); }
  }

  /** Cuts that fall more than once fall by the same and still wrap. */
  lemma TogetherAgain(c: seq<nat>, e: seq<nat>, d: seq<nat>, s: nat, k: nat, r: nat, a: nat, j: nat)
    requires SpanningCall(c, e, d, s, k, r) && FallTogether(c, d, s, a, j) && c[j] >= 2 * Fall(s)
    ensures FallTogether(e, d, s, a, j) && e[j] == c[j] - Fall(s)
  {
    ComesClose(c, e, d, s, k, r, j);
    ComesClose(c, e, d, s, k, r, a - 1);
    FallsOnce(c[a], Fall(s));
    FallsOnce(c[j], Fall(s));
    forall i | a <= i <= j ensures e[i] == c[i] - Fall(s) && Wraps(e[i], d[i], s) {
      FallFreely(c, e, d, s, k, r, a, i);
      Apart(c, k, r, a, i);
    }
  }

  /** Cuts that fall once more get below the fall. */
  lemma TogetherBelow(c: seq<nat>, e: seq<nat>, d: seq<nat>, s: nat, k: nat, r: nat, a: nat, j: nat)
    requires SpanningCall(c, e, d, s, k, r) && FallTogether(c, d, s, a, j) && c[j] < 2 * Fall(s)
    ensures e[j] < Fall(s) && !Wraps(e[j], d[j], s)
  {
    ComesClose(c, e, d, s, k, r, j);
    FallLow(c, e, d, s, k, r, a, j);
  }

  lemma RecoversNext(c: seq<nat>, e: seq<nat>, d: seq<nat>, s: nat, k: nat, r: nat)
    requires SpanningCall(c, e, d, s, k, r) && Recovers(c, d, s)
    ensures Recovers(e, d, s)
  {
    forall j: nat | Harmful(e, d, s, j) ensures exists a: nat :: FallTogether(e, d, s, a, j) {
      ComesClose(c, e, d, s, k, r, j);
      assert Harmful(c, d, s, j);
      var a: nat :| FallTogether(c, d, s, a, j);
      if c[j] < 2 * Fall(s) { TogetherBelow(c, e, d, s, k, r, a, j); } else { TogetherAgain(c, e, d, s, k, r, a, j); }
    }
  }

  lemma RecoveredBefore(c: seq<nat>, e: seq<nat>, d: seq<nat>, s: nat, k: nat, r: nat)
    requires SpanningCall(c, e, d, s, k, r) && Recovers(e, d, s)
    ensures Recovers(c, d, s)
  {
    forall j: nat | Harmful(c, d, s, j) ensures exists a: nat :: FallTogether(c, d, s, a, j) {
      ComesClose(c, e, d, s, k, r, j);
      ComesClose(c, e, d, s, k, r, j - 1);
      assert Lands(c, e, d, s, j) && d[j - 1] < d[j];
      if e[j] < Fall(s) {
        var a := FellBelow(c, e, d, s, k, r, j);
      } else {
        assert Harmful(e, d, s, j);
        var a: nat :| FallTogether(e, d, s, a, j);
        FellTogether(c, e, d, s, k, r, a, j);
      }
    }
  }

  lemma FellBelow(c: seq<nat>, e: seq<nat>, d: seq<nat>, s: nat, k: nat, r: nat, j: nat) returns (a: nat)
    requires SpanningCall(c, e, d, s, k, r) && Harmful(c, d, s, j) && j < k && e[j] < Fall(s)
    ensures FallTogether(c, d, s, a, j)
  {
    a := FirstToWrap(c, d, s, k, r, j);
    ComesClose(c, e, d, s, k, r, a - 1);
    Apart(e, k, r, a - 1, j);
    Apart(c, k, r, a, j);
    assert Lands(c, e, d, s, j);
    FallsOnce(c[a], Fall(s));
    FallsOnce(c[j], Fall(s));
  }

  lemma FellTogether(c: seq<nat>, e: seq<nat>, d: seq<nat>, s: nat, k: nat, r: nat, a: nat, j: nat)
    requires SpanningCall(c, e, d, s, k, r) && FallTogether(e, d, s, a, j) && j < k
    ensures FallTogether(c, d, s, a, j)
  {
    forall i | a <= i <= j ensures Wraps(c[i], d[i], s) { ComesClose(c, e, d, s, k, r, i); }
    ComesClose(c, e, d, s, k, r, a - 1);
    assert Lands(c, e, d, s, a);
    FallFreely(c, e, d, s, k, r, a, j);
    FallFreely(c, e, d, s, k, r, a, a);
    FallsOnce(c[a], Fall(s));
    FallsOnce(c[j], Fall(s));
  }

  /** Calls neither gain nor lose the condition. */
  lemma RecoversKept(c: seq<nat>, e: seq<nat>, d: seq<nat>, s: nat, k: nat, r: nat)
    requires IsCall(c, e, d, s, k, r) && Spans(s, r)
    ensures Recovers(e, d, s) <==> Recovers(c, d, s)
  {
    CallSpans(c, e, d, s, k, r);
    if Recovers(c, d, s) { RecoversNext(c, e, d, s, k, r); }
    if Recovers(e, d, s) { RecoveredBefore(c, e, d, s, k, r); }
  }

  // ----- all calls -----

  lemma {:induction false} RecoversThroughout(cs: seq<seq<nat>>, d: seq<nat>, s: nat, k: nat, r: nat, n: nat)
    requires AreCalls(cs, d, s, k, r) && Spans(s, r) && n < |cs|
    ensures Recovers(cs[n], d, s) <==> Recovers(cs[0], d, s)
  {
    if n > 0 {
      var m := n - 1;
      RecoversThroughout(cs, d, s, k, r, m);
      assert IsCall(cs[m], cs[m + 1], d, s, k, r);
      RecoversKept(cs[m], cs[n], d, s, k, r);
    }
  }

  /** No number of calls arrives if a harmful cut has no room to get below the fall. */
  lemma NoCallArrives(cs: seq<seq<nat>>, d: seq<nat>, s: nat, k: nat, r: nat, n: nat)
    requires AreCalls(cs, d, s, k, r) && Spans(s, r) && n < |cs| && !Recovers(cs[0], d, s)
    ensures cs[n] != d
  {
    RecoversThroughout(cs, d, s, k, r, n);
  }

  /** With a step that spans every distance, cuts without a harmful one are harmless. */
  lemma NoneHarmful(c: seq<nat>, d: seq<nat>, s: nat, k: nat, r: nat)
    requires ValidCutsOf(c, k, r) && ValidCutsOf(d, k, r) && Spans(s, r)
    ensures Harmless(c, d, s) <==> Unharmed(c, d, s)
  {
    forall j | 0 <= j < k ensures Toward(c[j], d[j], s) == d[j] { assert c[j] < c[k] && d[j] < d[k]; }
    if Unharmed(c, d, s) {
      forall i | 0 < i < |c| && Wraps(c[i], d[i], s) ensures d[i] == Toward(c[i - 1], d[i - 1], s) + 1 {
        assert !Harmful(c, d, s, i);
      }
    }
  }

  /** Harmful cuts that recover fall equally often. */
  lemma EquallyOften(c: seq<nat>, d: seq<nat>, s: nat, k: nat, r: nat, i: nat, j: nat)
    requires ValidCuts(c, k, r) && ValidCuts(d, k, r) && s < U64 && Recovers(c, d, s)
    requires Harmful(c, d, s, i) && Harmful(c, d, s, j)
    ensures c[i] / Fall(s) == c[j] / Fall(s)
  {
    var a: nat :| FallTogether(c, d, s, a, i);
    var b: nat :| FallTogether(c, d, s, b, j);
    if a < b { WrapsHigh(c, d, s, k, r, a, b - 1); }
    if b < a { WrapsHigh(c, d, s, k, r, b, a - 1); }
  }

  /** A cut that wraps has a target above the fall, and so have the cuts behind it. */
  lemma WrapsHigh(c: seq<nat>, d: seq<nat>, s: nat, k: nat, r: nat, i: nat, j: nat)
    requires ValidCuts(d, k, r) && s < U64 && i <= j < |d| == |c| && Wraps(c[i], d[i], s)
    ensures d[j] > Fall(s)
  {
    assert i < j ==> d[i] < d[j];
  }

  /** The cuts before a call, and the call. */
  lemma CallAt(cs: seq<seq<nat>>, d: seq<nat>, s: nat, k: nat, r: nat, m: nat)
    requires AreCalls(cs, d, s, k, r) && m + 1 < |cs|
    ensures IsCall(cs[m], cs[m + 1], d, s, k, r) && ValidCutsOf(cs[m + 1], k, r)
  {
    assert IsCall(cs[m], cs[m + 1], d, s, k, r);
    MovedIsValid(cs[m], d, k, r, s);
    CutsAreWords(cs[m + 1], k, r);
  }

  /** If harmful cuts recover, the calls arrive after one more than a harmful cut falls, and stay. */
  lemma {:induction false} ArriveAfterFalls(cs: seq<seq<nat>>, d: seq<nat>, s: nat, k: nat, r: nat, j: nat, m: nat, n: nat)
    requires AreCalls(cs, d, s, k, r) && Spans(s, r) && m <= n < |cs|
    requires Recovers(cs[m], d, s) && Harmful(cs[m], d, s, j)
    ensures cs[n] == d <==> n - m > cs[m][j] / Fall(s)
    decreases n - m
  {
    FallsOnce(cs[m][j], Fall(s));
    if m < n {
      var i := m + 1;
      CallAt(cs, d, s, k, r, m);
      CallSpans(cs[m], cs[i], d, s, k, r);
      FallStep(cs[m], cs[i], d, s, k, r, j);
      if cs[m][j] / Fall(s) == 1 {
        OneCallArrives(cs, d, s, k, r, i, n);
      } else {
        ArriveAfterFalls(cs, d, s, k, r, j, i, n);
      }
    }
  }

  lemma FallStep(c: seq<nat>, e: seq<nat>, d: seq<nat>, s: nat, k: nat, r: nat, j: nat)
    requires SpanningCall(c, e, d, s, k, r) && Recovers(c, d, s) && Harmful(c, d, s, j)
    ensures if c[j] / Fall(s) == 1 then Unharmed(e, d, s) && e != d
            else Recovers(e, d, s) && Harmful(e, d, s, j) && e[j] / Fall(s) == c[j] / Fall(s) - 1
  {
    FallsOnce(c[j], Fall(s));
    if c[j] < 2 * Fall(s) { LastFall(c, e, d, s, k, r, j); } else { FallsAgain(c, e, d, s, k, r, j); }
  }

  lemma FallsAgain(c: seq<nat>, e: seq<nat>, d: seq<nat>, s: nat, k: nat, r: nat, j: nat)
    requires SpanningCall(c, e, d, s, k, r) && Recovers(c, d, s) && Harmful(c, d, s, j) && c[j] >= 2 * Fall(s)
    ensures Recovers(e, d, s) && Harmful(e, d, s, j) && e[j] == c[j] - Fall(s)
  {
    var a: nat :| FallTogether(c, d, s, a, j);
    RecoversNext(c, e, d, s, k, r);
    TogetherAgain(c, e, d, s, k, r, a, j);
  }

  /** After its last fall no cut is harmful. */
  lemma LastFall(c: seq<nat>, e: seq<nat>, d: seq<nat>, s: nat, k: nat, r: nat, j: nat)
    requires SpanningCall(c, e, d, s, k, r) && Recovers(c, d, s) && Harmful(c, d, s, j) && c[j] < 2 * Fall(s)
    ensures Unharmed(e, d, s) && e != d
  {
    var a: nat :| FallTogether(c, d, s, a, j);
    TogetherBelow(c, e, d, s, k, r, a, j);
    WrapsHigh(c, d, s, k, r, j, j);
    forall i: nat ensures !Harmful(e, d, s, i) { FellAsOften(c, e, d, s, k, r, i, j); }
  }

  lemma FellAsOften(c: seq<nat>, e: seq<nat>, d: seq<nat>, s: nat, k: nat, r: nat, i: nat, j: nat)
    requires SpanningCall(c, e, d, s, k, r) && Recovers(c, d, s) && Harmful(c, d, s, j) && c[j] < 2 * Fall(s)
    ensures !Harmful(e, d, s, i)
  {
    if Harmful(c, d, s, i) {
      EquallyOften(c, d, s, k, r, i, j);
      FallsOnce(c[i], Fall(s));
      FallsOnce(c[j], Fall(s));
      var b: nat :| FallTogether(c, d, s, b, i);
      TogetherBelow(c, e, d, s, k, r, b, i);
    } else if 0 < i < |c| {
      ComesClose(c, e, d, s, k, r, i);
    }
  }

  lemma OneCallArrives(cs: seq<seq<nat>>, d: seq<nat>, s: nat, k: nat, r: nat, m: nat, n: nat)
    requires AreCalls(cs, d, s, k, r) && Spans(s, r) && m <= n < |cs| && |cs[m]| == |d|
    requires Unharmed(cs[m], d, s) && cs[m] != d
    ensures cs[n] == d <==> n > m
  {
    if n > m {
      UnharmedCall(cs, d, s, k, r, m);
      TargetStays(cs, d, s, k, r, m + 1, n);
    }
  }

  lemma UnharmedCall(cs: seq<seq<nat>>, d: seq<nat>, s: nat, k: nat, r: nat, m: nat)
    requires AreCalls(cs, d, s, k, r) && Spans(s, r) && m + 1 < |cs| && Unharmed(cs[m], d, s)
    ensures cs[m + 1] == d
  {
    assert IsCall(cs[m], cs[m + 1], d, s, k, r);
    UnharmedArrives(cs[m], cs[m + 1], d, s, k, r);
  }

  lemma UnharmedArrives(c: seq<nat>, e: seq<nat>, d: seq<nat>, s: nat, k: nat, r: nat)
    requires IsCall(c, e, d, s, k, r) && Spans(s, r) && Unharmed(c, d, s)
    ensures e == d
  {
    NoneHarmful(c, d, s, k, r);
    SpansAll(c, d, s, k, r);
    BoundedMove(c, d, k, r, s);
    ZeroDistance(e, d);
  }

  /** Calls that lead from c to d. */
  ghost predicate LeadTo(cs: seq<seq<nat>>, c: seq<nat>, d: seq<nat>, s: nat, k: nat, r: nat) {
    AreCalls(cs, d, s, k, r) && cs[0] == c && cs[|cs| - 1] == d
  }

  lemma OneMoreCall(cs: seq<seq<nat>>, d: seq<nat>, s: nat, k: nat, r: nat) returns (more: seq<seq<nat>>)
    requires AreCalls(cs, d, s, k, r) && ValidCutsOf(cs[|cs| - 1], k, r)
    ensures AreCalls(more, d, s, k, r) && |more| == |cs| + 1 && more[0] == cs[0] && ValidCutsOf(more[|cs|], k, r)
  {
    var c := cs[|cs| - 1];
    var e := Moved(c, d, s, r);
    MovedIsValid(c, d, k, r, s);
    CutsAreWords(e, k, r);
    more := cs + [e];
    forall i | 0 <= i < |more| - 1 ensures IsCall(more[i], more[i + 1], d, s, k, r) {
      if i < |cs| - 1 { assert IsCall(cs[i], cs[i + 1], d, s, k, r); }
    }
  }

  /** The first n calls from c. */
  lemma {:induction false} Calls(c: seq<nat>, d: seq<nat>, s: nat, k: nat, r: nat, n: nat) returns (cs: seq<seq<nat>>)
    requires ValidCutsOf(c, k, r) && ValidCutsOf(d, k, r)
    ensures AreCalls(cs, d, s, k, r) && |cs| == n + 1 && cs[0] == c && ValidCutsOf(cs[n], k, r)
  {
    if n == 0 {
      cs := [c];
    } else {
      cs := Calls(c, d, s, k, r, n - 1);
      cs := OneMoreCall(cs, d, s, k, r);
    }
  }

  /** How many calls it takes: one more than a harmful cut falls, or what an intended move needs. */
  ghost function CallsToGo(c: seq<nat>, d: seq<nat>, s: nat): nat
    requires |c| == |d| && 0 < s < U64
  {
    if j: nat :| Harmful(c, d, s, j) then c[j] / Fall(s) + 1 else MovesNeeded(c, d, s)
  }

  /** For every step: if every harmful cut recovers, the calls arrive when they should and stay; if not, none
      arrives. */
  lemma CallsArriveLate(cs: seq<seq<nat>>, d: seq<nat>, s: nat, k: nat, r: nat, n: nat)
    requires AreCalls(cs, d, s, k, r) && n < |cs| && 0 < s < U64 && (r + s <= U64 || 2 * r <= U64)
    ensures cs[n] == d <==> Recovers(cs[0], d, s) && n >= CallsToGo(cs[0], d, s)
  {
    if r + s <= U64 {
      SmallStepsFit(cs[0], d, k, r, s);
      SmallCallsArrive(cs, d, s, k, r, n);
    } else {
      LargeCallsArrive(cs, d, s, k, r, n);
    }
  }

  lemma LargeCallsArrive(cs: seq<seq<nat>>, d: seq<nat>, s: nat, k: nat, r: nat, n: nat)
    requires AreCalls(cs, d, s, k, r) && n < |cs| && 0 < s && Spans(s, r)
    ensures cs[n] == d <==> Recovers(cs[0], d, s) && n >= CallsToGo(cs[0], d, s)
  {
    if !Recovers(cs[0], d, s) {
      NoCallArrives(cs, d, s, k, r, n);
    } else if j: nat :| Harmful(cs[0], d, s, j) && CallsToGo(cs[0], d, s) == cs[0][j] / Fall(s) + 1 {
      ArriveAfterFalls(cs, d, s, k, r, j, 0, n);
    } else {
      OneCallAtMost(cs, d, s, k, r, n);
    }
  }

  lemma OneCallAtMost(cs: seq<seq<nat>>, d: seq<nat>, s: nat, k: nat, r: nat, n: nat)
    requires AreCalls(cs, d, s, k, r) && n < |cs| && 0 < s && Spans(s, r) && Unharmed(cs[0], d, s)
    ensures cs[n] == d <==> n >= MovesNeeded(cs[0], d, s)
  {
    SpansAll(cs[0], d, s, k, r);
    if cs[0] == d { TargetStays(cs, d, s, k, r, 0, n); } else { OneCallArrives(cs, d, s, k, r, 0, n); }
  }

  /** For every step: repeated calls get from c to d if and only if every harmful cut recovers. */
  lemma TargetReached(c: seq<nat>, d: seq<nat>, s: nat, k: nat, r: nat)
    requires ValidCutsOf(c, k, r) && ValidCutsOf(d, k, r) && 0 < s < U64 && (r + s <= U64 || 2 * r <= U64)
    ensures (exists cs :: LeadTo(cs, c, d, s, k, r)) <==> Recovers(c, d, s)
  {
    if cs :| LeadTo(cs, c, d, s, k, r) {
      CallsArriveLate(cs, d, s, k, r, |cs| - 1);
    }
    if Recovers(c, d, s) {
      var n := CallsToGo(c, d, s);
      var cs := Calls(c, d, s, k, r, n);
      CallsArriveLate(cs, d, s, k, r, n);
      assert LeadTo(cs, c, d, s, k, r);
    }
  }

  /** From [0, 5, 10] towards [0, 7, 10] the first call falls back to 2, and the second arrives. */
  lemma ArrivesLate(cs: seq<seq<nat>>, d: seq<nat>, s: nat, n: nat)
    requires AreCalls(cs, d, s, 2, 10) && n < |cs| && cs[0] == [0, 5, 10] && d == [0, 7, 10] && s == U64 - 3
    ensures cs[n] == d <==> n >= 2
  {
    assert FallTogether(cs[0], d, s, 1, 1) && Harmful(cs[0], d, s, 1);
    ArriveAfterFalls(cs, d, s, 2, 10, 1, 0, n);
  }
}
