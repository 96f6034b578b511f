/** The incrementally rehashed dictionary, proved to be a finite map. */
module Dicts {
  import opened Powers
  import opened Wrappers
  import opened HashTables

  const HT_INITIAL_EXP: nat := 2
  const HT_INITIAL_SIZE: nat := 4
  const REHASH_MULTIPLIER: nat := 10

  /** Where an entry is: its table, its bucket and its place in the chain. */
  datatype Position = Position(table: nat, bucket: nat, index: nat)

  /** No key is in both tables; together they hold the map and count its keys. */
  ghost predicate Represents<K(!new), V>(hash: K -> nat, t0: Table<K, V>, t1: Table<K, V>, m: map<K, V>) {
    && (forall k {:trigger Both(hash, t0, t1, k)} ::
          && (Find(hash, t0, k).None? || Find(hash, t1, k).None?)
          && Both(hash, t0, t1, k) == if k in m then Some(m[k]) else None)
    && |m| == t0.used + t1.used
  }

  function Both<K(==), V>(hash: K -> nat, t0: Table<K, V>, t1: Table<K, V>, k: K): Option<V> {
    if Find(hash, t0, k).Some? then Find(hash, t0, k) else Find(hash, t1, k)
  }

  /** Some bucket from `from` on holds an entry, so that a scan that starts there stops within the table. */
  lemma ScanStops<K, V>(hash: K -> nat, t: Table<K, V>, from: nat)
    requires TableOk(hash, t) && t.used != 0
    requires forall b :: 0 <= b < from && b < |t.buckets| ==> t.buckets[b] == []
    ensures exists b :: from <= b < |t.buckets| && t.buckets[b] != []
  {
    TotalZero(t.buckets);
  }

  /** Tables in which the same is found stand for the same map. */
  lemma SameFinds<K(!new), V>(hash: K -> nat, t0: Table<K, V>, t1: Table<K, V>, u0: Table<K, V>, u1: Table<K, V>, m: map<K, V>)
    requires Represents(hash, t0, t1, m) && t0.used + t1.used == u0.used + u1.used
    requires forall k :: (Find(hash, u0, k).None? || Find(hash, u1, k).None?) && Both(hash, u0, u1, k) == Both(hash, t0, t1, k)
    ensures Represents(hash, u0, u1, m)
  {
  }

  /** An unallocated table may be replaced by a new one. */
  lemma AllocatedTable<K(!new), V>(hash: K -> nat, t0: Table<K, V>, m: map<K, V>, exp: nat)
    requires TableOk(hash, t0) && Represents(hash, t0, EmptyTable(), m)
    ensures TableOk(hash, NewTable<K, V>(exp)) && Represents(hash, t0, NewTable(exp), m)
    ensures t0.buckets == [] ==> Represents(hash, NewTable(exp), EmptyTable(), m)
  {
    NewTableOk<K, V>(hash, exp);
    forall k ensures Find(hash, NewTable<K, V>(exp), k).None? { NothingFound(hash, NewTable<K, V>(exp), k); }
    SameFinds(hash, t0, EmptyTable(), t0, NewTable(exp), m);
    if t0.buckets == [] { SameFinds(hash, t0, EmptyTable(), NewTable(exp), EmptyTable(), m); }
  }

  /** When the old table is empty it may be given up. */
  lemma FinishedTables<K(!new), V>(hash: K -> nat, t0: Table<K, V>, t1: Table<K, V>, m: map<K, V>)
    requires TableOk(hash, t0) && t0.used == 0 && Represents(hash, t0, t1, m)
    ensures Represents(hash, t1, EmptyTable(), m)
  {
    forall k ensures Find(hash, t0, k).None? { NothingFound(hash, t0, k); }
    SameFinds(hash, t0, t1, t1, EmptyTable(), m);
  }

  /** A key neither table holds is not mapped. */
  lemma NotMapped<K(!new), V>(hash: K -> nat, t0: Table<K, V>, t1: Table<K, V>, m: map<K, V>, key: K)
    requires Represents(hash, t0, t1, m) && Find(hash, t0, key).None? && Find(hash, t1, key).None?
    ensures key !in m
  {
    assert Both(hash, t0, t1, key).None?;
  }

  lemma NothingYet<K(!new), V>(hash: K -> nat, t: Table<K, V>, m: map<K, V>)
    requires t == EmptyTable() && m == map[]
    ensures TableOk(hash, t) && Represents(hash, t, t, m)
  {
    forall k ensures Find(hash, t, k).None? {}
    assert forall k {:trigger Both(hash, t, t, k)} :: Both(hash, t, t, k) == None;
  }

  /** Moving a chain from one table to the other keeps the map. */
  lemma MovedChain<K(!new), V>(hash: K -> nat, t0: Table<K, V>, t1: Table<K, V>, m: map<K, V>, b: nat)
    requires TableOk(hash, t0) && TableOk(hash, t1) && Represents(hash, t0, t1, m)
    requires b < |t0.buckets| && t1.buckets != []
    ensures t0.used >= |t0.buckets[b]|
    ensures TableOk(hash, Emptied(t0, b)) && TableOk(hash, PushAll(hash, t1, t0.buckets[b]))
    ensures Represents(hash, Emptied(t0, b), PushAll(hash, t1, t0.buckets[b]), m)
  {
    var chain := t0.buckets[b];
    EmptiedBucket(hash, t0, b);
    forall e | e in chain ensures Find(hash, t1, e.key).None? { ChainOnlyHere(hash, t0, t1, m, b, e.key); }
    assert ChainOk(hash, chain, b, |t0.buckets|);
    PushAllOk(hash, t1, chain);
    var u0, u1 := Emptied(t0, b), PushAll(hash, t1, chain);
    forall k ensures Find(hash, u0, k).None? || Find(hash, u1, k).None?
             ensures Both(hash, u0, u1, k) == Both(hash, t0, t1, k)
    {
      FindPushedAll(hash, t1, chain, k);
      ChainOnlyHere(hash, t0, t1, m, b, k);
    }
    SameFinds(hash, t0, t1, u0, u1, m);
  }

  /** A key in a chain of one table is found there and not in the other table. */
  lemma ChainOnlyHere<K(!new), V>(hash: K -> nat, t0: Table<K, V>, t1: Table<K, V>, m: map<K, V>, b: nat, k: K)
    requires TableOk(hash, t0) && Represents(hash, t0, t1, m) && b < |t0.buckets|
    ensures Find(hash, t0, k).None? || Find(hash, t1, k).None?
    ensures Lookup(t0.buckets[b], k).Some? ==> Find(hash, t0, k) == Lookup(t0.buckets[b], k) && Find(hash, t1, k).None?
    ensures Lookup(t0.buckets[b], k).None? ==> forall e <- t0.buckets[b] :: e.key != k
  {
    LookupFinds(t0.buckets[b], k);
    assert ChainOk(hash, t0.buckets[b], b, |t0.buckets|);
    assert Both(hash, t0, t1, k) == if k in m then Some(m[k]) else None;
  }

  function Other<T>(ts: seq<T>, t: nat): T
    requires |ts| == 2 && t < 2
  {
    ts[1 - t]
  }

  /** One table replaced by one that differs for one key, which the other table does not have. */
  lemma ChangedKey<K(!new), V>(hash: K -> nat, ts: seq<Table<K, V>>, t: nat, u: Table<K, V>, key: K, value: Option<V>,
                                   m: map<K, V>, m': map<K, V>)
    requires |ts| == 2 && t < 2 && Represents(hash, ts[0], ts[1], m) && Find(hash, Other(ts, t), key).None?
    requires forall k :: Find(hash, u, k) == if k == key then value else Find(hash, ts[t], k)
    requires m' == (if value.Some? then m[key := value.value] else m - {key}) && |m'| == u.used + Other(ts, t).used
    ensures Represents(hash, ts[t := u][0], ts[t := u][1], m')
  {
    var u0, u1 := ts[t := u][0], ts[t := u][1];
    forall k ensures Find(hash, u0, k).None? || Find(hash, u1, k).None?
             ensures Both(hash, u0, u1, k) == if k in m' then Some(m'[k]) else None
    {
      assert Both(hash, ts[0], ts[1], k) == if k in m then Some(m[k]) else None;
    }
  }

  /** A key one table holds is mapped to the value there, and the other table does not hold it. */
  lemma HeldOnce<K(!new), V>(hash: K -> nat, ts: seq<Table<K, V>>, t: nat, key: K, v: V, m: map<K, V>)
    requires |ts| == 2 && t < 2 && Represents(hash, ts[0], ts[1], m) && Find(hash, ts[t], key) == Some(v)
    ensures key in m && m[key] == v && Find(hash, Other(ts, t), key).None?
  {
    assert Both(hash, ts[0], ts[1], key) == Some(v);
  }

  lemma RemovedEntry<K(!new), V>(hash: K -> nat, ts: seq<Table<K, V>>, t: nat, b: nat, i: nat, m: map<K, V>, key: K)
    requires |ts| == 2 && t < 2 && TableOk(hash, ts[t]) && Represents(hash, ts[0], ts[1], m)
    requires b < |ts[t].buckets| && i < |ts[t].buckets[b]| && ts[t].buckets[b][i].key == key
    ensures ts[t].used > 0 && TableOk(hash, Without(ts[t], b, i))
    ensures key in m && ts[t].buckets[b][i] == Entry(key, m[key])
    ensures Represents(hash, ts[t := Without(ts[t], b, i)][0], ts[t := Without(ts[t], b, i)][1], m - {key})
  {
    EntryFound(hash, ts[t], b, i);
    UnlinkedOk(hash, ts[t], b, i);
    HeldOnce(hash, ts, t, key, ts[t].buckets[b][i].value, m);
    RemovedSize(m, key);
    ChangedKey(hash, ts, t, Without(ts[t], b, i), key, None, m, m - {key});
  }

  lemma UpdatedSize<K, V>(m: map<K, V>, key: K, v: V)
    requires key in m
    ensures |m[key := v]| == |m|
  {
    assert m[key := v].Keys == m.Keys;
    assert |m[key := v].Keys| == |m[key := v]|;
  }

  lemma RemovedSize<K, V>(m: map<K, V>, key: K)
    requires key in m
    ensures |m - {key}| == |m| - 1
  {
    assert m == (m - {key})[key := m[key]];
  }

  lemma AssignedEntry<K(!new), V>(hash: K -> nat, ts: seq<Table<K, V>>, t: nat, b: nat, i: nat, v: V, m: map<K, V>, key: K)
    requires |ts| == 2 && t < 2 && TableOk(hash, ts[t]) && Represents(hash, ts[0], ts[1], m)
    requires b < |ts[t].buckets| && i < |ts[t].buckets[b]| && ts[t].buckets[b][i].key == key
    ensures TableOk(hash, Assigned(ts[t], b, i, v))
    ensures Represents(hash, ts[t := Assigned(ts[t], b, i, v)][0], ts[t := Assigned(ts[t], b, i, v)][1], m[key := v])
  {
    EntryFound(hash, ts[t], b, i);
    AssignedOk(hash, ts[t], b, i, v);
    HeldOnce(hash, ts, t, key, ts[t].buckets[b][i].value, m);
    UpdatedSize(m, key, v);
    ChangedKey(hash, ts, t, Assigned(ts[t], b, i, v), key, Some(v), m, m[key := v]);
  }

  // ----- how far a rehash gets -----

  /** How many of the buckets i .. j-1 have no entries. */
  function EmptyIn<T>(bs: seq<seq<T>>, i: int, j: int): nat
    requires 0 <= i <= j <= |bs|
    decreases j
  {
    if i == j then 0 else EmptyIn(bs, i, j - 1) + if bs[j - 1] == [] then 1 else 0
  }

  /** How many of them have some. */
  function FullIn<T>(bs: seq<seq<T>>, i: int, j: int): nat
    requires 0 <= i <= j <= |bs|
    decreases j
  {
    if i == j then 0 else FullIn(bs, i, j - 1) + if bs[j - 1] == [] then 0 else 1
  }

  lemma {:induction false} EmptyRun<T>(bs: seq<seq<T>>, i: int, j: int, k: int)
    requires 0 <= i <= j <= k <= |bs| && forall b :: j <= b < k ==> bs[b] == []
    ensures EmptyIn(bs, i, k) == EmptyIn(bs, i, j) + (k - j) && FullIn(bs, i, k) == FullIn(bs, i, j)
    decreases k
  {
    if j < k { EmptyRun(bs, i, j, k - 1); }
  }

  /** From bucket i to bucket j some steps of rehashing are used up: by as many buckets with entries, or by ten times
      as many empty ones. */
  ghost predicate Spent<T>(bs: seq<seq<T>>, i: int, j: int, steps: nat) {
    && 0 <= i <= j <= |bs| && FullIn(bs, i, j) <= steps && EmptyIn(bs, i, j) <= steps * REHASH_MULTIPLIER
    && (FullIn(bs, i, j) == steps || EmptyIn(bs, i, j) == steps * REHASH_MULTIPLIER)
  }

  /** From bucket i on the buckets are what they were. */
  ghost predicate Left<T>(was: seq<seq<T>>, bs: seq<seq<T>>, i: int) {
    |was| == |bs| && forall b :: 0 <= i <= b < |bs| ==> bs[b] == was[b]
  }

  lemma NoneUsed<K, V>(hash: K -> nat, t: Table<K, V>)
    requires TableOk(hash, t) && t.used == 0
    ensures forall b :: 0 <= b < |t.buckets| ==> t.buckets[b] == []
  {
    TotalZero(t.buckets);
  }

  class Dict<K(==, !new), V> {
    var ht: seq<Table<K, V>>
    var rehashIdx: int
    const hash: K -> nat
    /** The map the two tables stand for. */
    ghost var model: map<K, V>

    predicate IsRehashing()
      reads `rehashIdx
    {
      rehashIdx != -1
    }

    /** What holds even between two moves of a rehashing step. */
    ghost predicate Sound()
      reads this
    {
      && |ht| == 2 && TableOk(hash, ht[0]) && TableOk(hash, ht[1]) && Represents(hash, ht[0], ht[1], model)
      && (rehashIdx == -1 ==> ht[1] == EmptyTable())
      && -1 <= rehashIdx <= |ht[0].buckets|
      && (rehashIdx >= 0 ==> ht[0].buckets != [] && ht[1].buckets != [])
      && forall b :: 0 <= b < rehashIdx ==> ht[0].buckets[b] == []
    }

    ghost predicate Valid()
      reads this
    {
      Sound() && (rehashIdx >= 0 ==> rehashIdx < |ht[0].buckets|)
    }

    constructor (h: K -> nat)
      ensures Valid() && hash == h && model == map[]
    {
      hash := h;
      ht := [EmptyTable(), EmptyTable()];
      rehashIdx := -1;
      model := map[];
      new;
      StartsValid();
    }

    lemma StartsValid()
      requires ht == [EmptyTable(), EmptyTable()] && rehashIdx == -1 && model == map[]
      ensures Valid()
    {
      NothingYet(hash, ht[0], model);
    }

    function GetSize(): (n: nat)
      requires Valid()
      reads this
      ensures n == |model|
    {
      ht[0].used + ht[1].used
    }

    // ----- rehashing -----

    /** Performs steps of incremental rehashing: moves as many buckets with entries as there are steps, unless it
        meets ten empty ones a step before, or none is left. */
    method Rehash(steps: nat) returns (more: bool)
      requires Valid() && IsRehashing()
      modifies `ht, `rehashIdx
      ensures Valid() && more == IsRehashing()
      ensures more && steps > 0 ==> rehashIdx > old(rehashIdx)
      ensures more ==> ht[0].exp == old(ht[0].exp) && ht[1].exp == old(ht[1].exp)
      ensures !more ==> ht[0].exp == old(ht[1].exp)
      ensures more ==> Spent(old(ht[0].buckets), old(rehashIdx), rehashIdx, steps)
      ensures !more ==> FullIn(old(ht[0].buckets), old(rehashIdx), |old(ht[0].buckets)|) <= steps
    {
      ghost var was, from := ht[0].buckets, rehashIdx;
      var emptyVisits := steps * REHASH_MULTIPLIER;
      var left := steps;
      while left > 0 && ht[0].used != 0
        invariant Sound() && IsRehashing() && from <= rehashIdx
        invariant left < steps ==> rehashIdx > from
        invariant left > 0 ==> emptyVisits > 0
        invariant ht[0].exp == old(ht[0].exp) && ht[1].exp == old(ht[1].exp)
        invariant 0 <= left <= steps && emptyVisits >= 0
        invariant Left(was, ht[0].buckets, rehashIdx)
        invariant FullIn(was, from, rehashIdx) == steps - left
        invariant EmptyIn(was, from, rehashIdx) == steps * REHASH_MULTIPLIER - emptyVisits
        decreases left
      {
        var spent;
        spent, emptyVisits := RehashStep(emptyVisits, was, from);
        if spent { return true; }
        left := left - 1;
      }
      if ht[0].used == 0 {
        NoneUsed(hash, ht[0]);
        EmptyRun(was, from, rehashIdx, |was|);
        FinishRehash();
        return false;
      }
      ScanStops(hash, ht[0], rehashIdx);
      return true;
    }

    /** One round of the loop: on to the next bucket with entries, and past it. */
    method RehashStep(visits: nat, ghost was: seq<seq<Entry<K, V>>>, ghost from: int) returns (spent: bool, left: nat)
      requires Sound() && IsRehashing() && ht[0].used != 0 && visits > 0
      requires 0 <= from <= rehashIdx && Left(was, ht[0].buckets, rehashIdx)
      modifies `ht, `rehashIdx
      ensures Sound() && IsRehashing() && rehashIdx > old(rehashIdx) && Left(was, ht[0].buckets, rehashIdx)
      ensures ht[0].exp == old(ht[0].exp) && ht[1].exp == old(ht[1].exp)
      ensures spent ==> Valid() && left == 0
      ensures !spent ==> left > 0
      ensures FullIn(was, from, rehashIdx) == FullIn(was, from, old(rehashIdx)) + if spent then 0 else 1
      ensures EmptyIn(was, from, rehashIdx) == EmptyIn(was, from, old(rehashIdx)) + (visits - left)
    {
      ghost var at := rehashIdx;
      spent, left := SkipEmpty(visits);
      EmptyRun(was, from, at, rehashIdx);
      if !spent { MoveBucket(); }
    }

    /** The inner scan for a bucket with entries; it never leaves the table. */
    method SkipEmpty(visits: nat) returns (spent: bool, left: nat)
      requires Sound() && IsRehashing() && ht[0].used != 0 && visits > 0
      modifies `rehashIdx
      ensures Valid() && IsRehashing() && old(rehashIdx) <= rehashIdx
      ensures spent ==> rehashIdx == old(rehashIdx) + visits
      ensures !spent ==> ht[0].buckets[rehashIdx] != [] && left > 0 && left == visits - (rehashIdx - old(rehashIdx))
      ensures spent ==> left == 0
      ensures forall b :: old(rehashIdx) <= b < rehashIdx ==> ht[0].buckets[b] == []
    {
      left := visits;
      ScanStops(hash, ht[0], rehashIdx);
      while ht[0].buckets[rehashIdx] == []
        invariant Valid() && IsRehashing() && old(rehashIdx) <= rehashIdx && left > 0
        invariant left == visits - (rehashIdx - old(rehashIdx))
        invariant forall b :: old(rehashIdx) <= b < rehashIdx ==> ht[0].buckets[b] == []
        decreases left
      {
        StepPastEmpty();
        left := left - 1;
        if left == 0 { return true, left; }
      }
      return false, left;
    }

    method StepPastEmpty()
      requires Valid() && IsRehashing() && ht[0].used != 0 && ht[0].buckets[rehashIdx] == []
      modifies `rehashIdx
      ensures Valid() && rehashIdx == old(rehashIdx) + 1
    {
      ScanStops(hash, ht[0], rehashIdx + 1);
      rehashIdx := rehashIdx + 1;
    }

    /** Moves the entries of one bucket into the new table and steps past it. */
    method MoveBucket()
      requires Valid() && IsRehashing()
      modifies `ht, `rehashIdx
      ensures Sound() && rehashIdx == old(rehashIdx) + 1
      ensures ht[0].buckets == old(ht[0].buckets[rehashIdx := []])
      ensures ht[0].exp == old(ht[0].exp) && ht[1].exp == old(ht[1].exp)
    {
      MovedChain(hash, ht[0], ht[1], model, rehashIdx);
      RelinkChain(ht[0].buckets[rehashIdx]);
      ht := ht[0 := WithChain(ht[0], rehashIdx, [])];
      assert ht[0] == old(Emptied(ht[0], rehashIdx));
      rehashIdx := rehashIdx + 1;
    }

    /** Pushes the entries of a chain of the old table onto the new one, one at a time. */
    method RelinkChain(chain: seq<Entry<K, V>>)
      requires |ht| == 2 && ht[1].buckets != [] && ht[0].used >= |chain|
      modifies `ht
      ensures ht == [old(ht[0]).(used := old(ht[0]).used - |chain|), PushAll(hash, old(ht[1]), chain)]
    {
      var i := 0;
      while i < |chain|
        invariant 0 <= i <= |chain| && |ht| == 2
        invariant ht[0] == old(ht[0]).(used := old(ht[0]).used - i)
        invariant ht[1] == PushAll(hash, old(ht[1]), chain[..i])
      {
        assert chain[..i + 1][..i] == chain[..i];
        ht := [ht[0].(used := ht[0].used - 1), Push(hash, ht[1], chain[i])];
        i := i + 1;
      }
      assert chain[..i] == chain;
    }

    /** The new table becomes the only one. */
    method FinishRehash()
      requires Sound() && IsRehashing() && ht[0].used == 0
      modifies `ht, `rehashIdx
      ensures Valid() && !IsRehashing() && ht[0] == old(ht[1])
    {
      FinishedTables(hash, ht[0], ht[1], model);
      ht := [ht[1], EmptyTable()];
      rehashIdx := -1;
    }

    // ----- sizes -----

    /** The smallest admissible exponent of a table for `size` entries. */
    static method NextExp(size: nat) returns (exp: nat)
      ensures exp >= HT_INITIAL_EXP && Pow2(exp) >= size
      ensures exp > HT_INITIAL_EXP ==> Pow2(exp - 1) < size
    {
      exp := HT_INITIAL_EXP;
      while Pow2(exp) < size
        invariant exp >= HT_INITIAL_EXP
        invariant exp > HT_INITIAL_EXP ==> Pow2(exp - 1) < size
        decreases size - Pow2(exp)
      {
        exp := exp + 1;
      }
    }

    /** No smaller admissible table has as many buckets as asked for. */
    static ghost predicate Smallest(t: Table<K, V>, size: nat) {
      t.exp >= HT_INITIAL_EXP && |t.buckets| >= size && (t.exp > HT_INITIAL_EXP ==> Pow2(t.exp - 1) < size)
    }

    /** Creates the first table or starts a rehash into a new one. */
    method Expand(size: nat) returns (done: bool)
      requires Valid()
      modifies `ht, `rehashIdx
      ensures Valid()
      ensures !done ==> ht == old(ht) && rehashIdx == old(rehashIdx)
      ensures old(ht[0].buckets) != [] ==> ht[0] == old(ht[0])
      ensures done ==> !old(IsRehashing()) && old(ht[0].used) <= size && IsRehashing() == old(ht[0].buckets != [])
      ensures !old(IsRehashing()) && old(ht[0].used) <= size ==>
        && Smallest(ht[if IsRehashing() then 1 else 0], size)
        && (done <==> ht[if IsRehashing() then 1 else 0].exp != old(ht[0].exp))
    {
      if IsRehashing() || ht[0].used > size { return false; }
      var newExp := NextExp(size);
      if newExp == ht[0].exp { return false; }
      if !IsRehashing() { AllocatedTable(hash, ht[0], model, newExp); }
      if ht[0].buckets == [] {
        ht := ht[0 := NewTable(newExp)];
      } else {
        ht := ht[1 := NewTable(newExp)];
        rehashIdx := 0;
      }
      return true;
    }

    /** Makes sure there is a table to insert into and no full one but during a rehash; in this model it always
        succeeds. */
    method ExpandIfNeeded() returns (ok: bool)
      requires Valid()
      modifies `ht, `rehashIdx
      ensures Valid() && ok && ht[0].buckets != []
      ensures IsRehashing() || ht[0].used < |ht[0].buckets|
      ensures old(IsRehashing() || ht[0].used < |ht[0].buckets|) ==> ht == old(ht) && rehashIdx == old(rehashIdx)
      ensures old(ht[0].buckets) != [] ==> ht[0] == old(ht[0])
    {
      if IsRehashing() {
        return true;
      } else if CalculateSize(ht[0].exp) == 0 {
        ok := Expand(HT_INITIAL_SIZE);
      } else if ht[0].used >= CalculateSize(ht[0].exp) {
        ok := Expand(ht[0].used + 1);
      } else {
        return true;
      }
    }

    /** Starts a rehash into the smallest table that contains all elements, unless the table has that size. */
    method Resize() returns (done: bool)
      requires Valid()
      modifies `ht, `rehashIdx
      ensures Valid()
      ensures old(IsRehashing()) ==> !done && ht == old(ht)
      ensures !old(IsRehashing()) ==>
        Smallest(ht[if IsRehashing() then 1 else 0], if |model| < HT_INITIAL_SIZE then HT_INITIAL_SIZE else |model|)
    {
      if IsRehashing() { return false; }
      done := Expand(if ht[0].used < HT_INITIAL_SIZE then HT_INITIAL_SIZE else ht[0].used);
    }

    // ----- searching -----

    /** Where the entry of a key is, in whichever table. */
    ghost predicate Holds(p: Position, key: K)
      requires |ht| == 2
      reads this
    {
      && p.table < 2 && p.bucket < |ht[p.table].buckets| && p.index < |ht[p.table].buckets[p.bucket]|
      && ht[p.table].buckets[p.bucket][p.index].key == key
    }

    lemma HeldIsMapped(p: Position, key: K)
      requires Valid() && Holds(p, key)
      ensures key in model && ht[p.table].buckets[p.bucket][p.index].value == model[key]
      ensures p.bucket == Slot(hash, key, |ht[p.table].buckets|)
    {
      EntryFound(hash, ht[p.table], p.bucket, p.index);
      assert Both(hash, ht[0], ht[1], key).Some?;
    }

    /** Walks the chains of a key, in the old table and, in the middle of a rehash, in the new one. */
    method Search(key: K) returns (p: Option<Position>)
      requires Valid() && ht[0].buckets != []
      ensures p.Some? <==> key in model
      ensures p.Some? ==> Holds(p.value, key)
    {
      var table := 0;
      while table <= 1
        invariant 0 <= table <= 2 && (table == 1 ==> IsRehashing())
        invariant forall t :: 0 <= t < table ==> Find(hash, ht[t], key).None?
      {
        var idx := Slot(hash, key, |ht[table].buckets|);
        var chain := ht[table].buckets[idx];
        var i := 0;
        while i < |chain|
          invariant 0 <= i <= |chain|
          invariant forall j :: 0 <= j < i ==> chain[j].key != key
        {
          if chain[i].key == key {
            HeldIsMapped(Position(table, idx, i), key);
            return Some(Position(table, idx, i));
          }
          i := i + 1;
        }
        LookupFinds(chain, key);
        if !IsRehashing() {
          NotMapped(hash, ht[0], ht[1], model, key);
          return None;
        }
        table := table + 1;
      }
      NotMapped(hash, ht[0], ht[1], model, key);
      return None;
    }

    /** One step of the rehash that was under way, if one was. */
    twostate predicate Advanced()
      reads this
    {
      old(rehashIdx) != -1 && |old(ht)| == 2 && |ht| == 2 ==> rehashIdx > old(rehashIdx) || ht[0].exp == old(ht[1].exp)
    }

    method FindEntry(key: K) returns (p: Option<Position>)
      requires Valid()
      modifies `ht, `rehashIdx
      ensures Valid() && (|model| > 0 ==> Advanced())
      ensures p.Some? <==> key in model
      ensures p.Some? ==> Holds(p.value, key)
    {
      if GetSize() == 0 {
        assert model == map[];
        return None;
      }
      if IsRehashing() { var _ := Rehash(1); }
      TableExists();
      p := Search(key);
    }

    /** A map with keys has its first table. */
    lemma TableExists()
      requires Valid() && |model| != 0
      ensures ht[0].buckets != []
    {
    }

    method Get(key: K) returns (value: Option<V>)
      requires Valid()
      modifies `ht, `rehashIdx
      ensures Valid() && (|model| > 0 ==> Advanced())
      ensures value == if key in model then Some(model[key]) else None
    {
      var p := FindEntry(key);
      if p.None? { return None; }
      HeldIsMapped(p.value, key);
      return Some(ht[p.value.table].buckets[p.value.bucket][p.value.index].value);
    }

    // ----- updates -----

    /** The bucket a new key goes to, in the table insertions go to; or else where the key is. */
    method KeyIndex(key: K) returns (index: Option<nat>, existing: Option<Position>)
      requires Valid()
      modifies `ht, `rehashIdx
      ensures Valid() && ht[0].buckets != []
      ensures existing.Some? <==> key in model
      ensures existing.Some? ==> Holds(existing.value, key)
      ensures old(IsRehashing()) ==> ht == old(ht) && rehashIdx == old(rehashIdx)
      ensures old(ht[0].buckets) != [] ==> ht[0] == old(ht[0])
      ensures index == if key in model then None
                       else Some(Slot(hash, key, |ht[if IsRehashing() then 1 else 0].buckets|))
    {
      var ok := ExpandIfNeeded();
      if !ok { return None, None; }
      existing := Search(key);
      if existing.Some? { return None, existing; }
      index := Some(Slot(hash, key, |ht[if IsRehashing() then 1 else 0].buckets|));
    }

    /** Links a new entry in front of its chain unless the key is there already. */
    method AddRaw(key: K, value: V) returns (added: bool, existing: Option<Position>)
      requires Valid()
      modifies this
      ensures Valid() && Advanced()
      ensures added <==> key !in old(model)
      ensures model == if added then old(model)[key := value] else old(model)
      ensures !added ==> existing.Some? && Holds(existing.value, key)
    {
      if IsRehashing() { var _ := Rehash(1); }
      var index;
      index, existing := KeyIndex(key);
      if index.None? { return false, existing; }
      InsertAt(index.value, key, value);
      added := true;
    }

    /** Links a new entry in front of its chain in the table insertions go to. */
    method InsertAt(index: nat, key: K, value: V)
      requires Valid() && ht[0].buckets != [] && key !in model
      requires index == Slot(hash, key, |ht[if IsRehashing() then 1 else 0].buckets|)
      modifies this
      ensures Valid() && model == old(model)[key := value]
      ensures rehashIdx == old(rehashIdx) && ht[0].exp == old(ht[0].exp) && ht[1].exp == old(ht[1].exp)
    {
      var t := if IsRehashing() then 1 else 0;
      PushedMap(t, Entry(key, value));
      ht := ht[t := WithChain(ht[t], index, [Entry(key, value)] + ht[t].buckets[index]).(used := ht[t].used + 1)];
      model := model[key := value];
    }

    lemma PushedMap(t: nat, e: Entry<K, V>)
      requires Valid() && t < 2 && ht[t].buckets != [] && e.key !in model
      ensures var u := Push(hash, ht[t], e);
              TableOk(hash, u) && Represents(hash, ht[t := u][0], ht[t := u][1], model[e.key := e.value])
    {
      assert Both(hash, ht[0], ht[1], e.key).None?;
      PushOk(hash, ht[t], e);
      forall k ensures Find(hash, Push(hash, ht[t], e), k) == if k == e.key then Some(e.value) else Find(hash, ht[t], k) {
        FindPushed(hash, ht[t], e, k);
      }
      ChangedKey(hash, ht, t, Push(hash, ht[t], e), e.key, Some(e.value), model, model[e.key := e.value]);
    }

    /** Adds a key, or does nothing if it is there. */
    method Add(key: K, value: V) returns (added: bool)
      requires Valid()
      modifies this
      ensures Valid() && Advanced()
      ensures added <==> key !in old(model)
      ensures model == if added then old(model)[key := value] else old(model)
    {
      var existing;
      added, existing := AddRaw(key, value);
    }

    /** Adds a key or overwrites its value. */
    method Replace(key: K, value: V) returns (added: bool)
      requires Valid()
      modifies this
      ensures Valid()
      ensures added <==> key !in old(model)
      ensures model == old(model)[key := value]
    {
      var existing;
      added, existing := AddRaw(key, value);
      if added { return; }
      var p := existing.value;
      AssignAt(p, key, value);
    }

    method AssignAt(p: Position, key: K, value: V)
      requires Valid() && Holds(p, key)
      modifies this
      ensures Valid() && model == old(model)[key := value]
    {
      AssignedEntry(hash, ht, p.table, p.bucket, p.index, value, model, key);
      ht := ht[p.table := Assigned(ht[p.table], p.bucket, p.index, value)];
      model := model[key := value];
    }

    /** Takes the entry of a key out of its chain. */
    method GenericDelete(key: K) returns (entry: Option<Entry<K, V>>)
      requires Valid()
      modifies this
      ensures Valid() && (old(model) != map[] ==> Advanced())
      ensures entry == if key in old(model) then Some(Entry(key, old(model)[key])) else None
      ensures model == old(model) - {key}
    {
      if GetSize() == 0 { return None; }
      if IsRehashing() { var _ := Rehash(1); }
      TableExists();
      var p := Search(key);
      if p.None? { return None; }
      var e := RemoveAt(p.value, key);
      entry := Some(e);
    }

    method RemoveAt(p: Position, key: K) returns (entry: Entry<K, V>)
      requires Valid() && Holds(p, key)
      modifies this
      ensures Valid() && key in old(model) && entry == Entry(key, old(model)[key]) && model == old(model) - {key}
      ensures rehashIdx == old(rehashIdx) && ht[0].exp == old(ht[0].exp)
    {
      RemovedEntry(hash, ht, p.table, p.bucket, p.index, model, key);
      entry := ht[p.table].buckets[p.bucket][p.index];
      ht := ht[p.table := Without(ht[p.table], p.bucket, p.index)];
      model := model - {key};
    }

    /** Takes a key out and hands its entry to the caller. */
    method Unlink(key: K) returns (entry: Option<Entry<K, V>>)
      requires Valid()
      modifies this
      ensures Valid()
      ensures entry == if key in old(model) then Some(Entry(key, old(model)[key])) else None
      ensures model == old(model) - {key}
    {
      entry := GenericDelete(key);
    }

    /** Takes a key out; tells whether it was there. */
    method Delete(key: K) returns (deleted: bool)
      requires Valid()
      modifies this
      ensures Valid()
      ensures deleted <==> key in old(model)
      ensures model == old(model) - {key}
    {
      var entry := GenericDelete(key);
      deleted := entry.Some?;
    }
  }
}
