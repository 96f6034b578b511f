/** Bucket tables with chains, and what the operations of the dictionary do to the entries in them. */
module HashTables {
  import opened Powers
  import opened Wrappers

  datatype Entry<K, V> = Entry(key: K, value: V)

  /** One of the two tables: exp is -1 and there are no buckets before it is allocated. */
  datatype Table<K, V> = Table(buckets: seq<seq<Entry<K, V>>>, used: nat, exp: int)

  function CalculateSize(exp: int): nat
    requires exp >= -1
  {
    if exp == -1 then 0 else Pow2(exp)
  }

  /** The hash and the mask 2^exp - 1, which is the hash modulo 2^exp. */
  function Slot<K>(hash: K -> nat, k: K, size: nat): (b: nat)
    requires size > 0
    ensures b < size
  {
    hash(k) % size
  }

  // ----- chains -----

  ghost predicate DistinctKeys<K, V>(chain: seq<Entry<K, V>>) {
    forall i, j :: 0 <= i < j < |chain| ==> chain[i].key != chain[j].key
  }

  function Lookup<K(==), V>(chain: seq<Entry<K, V>>, k: K): Option<V> {
    if chain == [] then None else if chain[0].key == k then Some(chain[0].value) else Lookup(chain[1..], k)
  }

  /** A chain without its i-th entry. */
  function Unlinked<K, V>(chain: seq<Entry<K, V>>, i: nat): seq<Entry<K, V>>
    requires i < |chain|
  {
    chain[..i] + chain[i + 1..]
  }

  lemma {:induction false} LookupAt<K, V>(chain: seq<Entry<K, V>>, i: nat)
    requires DistinctKeys(chain) && i < |chain|
    ensures Lookup(chain, chain[i].key) == Some(chain[i].value)
  {
    if i > 0 { LookupAt(chain[1..], i - 1); }
  }

  lemma {:induction false} LookupFinds<K, V>(chain: seq<Entry<K, V>>, k: K)
    ensures Lookup(chain, k).None? <==> forall e <- chain :: e.key != k
    ensures Lookup(chain, k).Some? ==> Entry(k, Lookup(chain, k).value) in chain
  {
    if chain != [] { LookupFinds(chain[1..], k); }
  }

  lemma {:induction false} LookupUnlinked<K, V>(chain: seq<Entry<K, V>>, i: nat, k: K)
    requires DistinctKeys(chain) && i < |chain|
    ensures DistinctKeys(Unlinked(chain, i))
    ensures Lookup(Unlinked(chain, i), k) == if k == chain[i].key then None else Lookup(chain, k)
  {
    UnlinkedDistinct(chain, i);
    if i == 0 {
      assert Unlinked(chain, 0) == chain[1..];
      LookupFinds(chain[1..], chain[0].key);
    } else {
      LookupUnlinked(chain[1..], i - 1, k);
      UnlinkedTail(chain, i);
    }
  }

  lemma UnlinkedDistinct<K, V>(chain: seq<Entry<K, V>>, i: nat)
    requires DistinctKeys(chain) && i < |chain|
    ensures DistinctKeys(Unlinked(chain, i))
  {
  }

  lemma UnlinkedTail<K, V>(chain: seq<Entry<K, V>>, i: nat)
    requires 0 < i < |chain|
    ensures Unlinked(chain, i) == [chain[0]] + Unlinked(chain[1..], i - 1)
    ensures Unlinked(chain, i)[1..] == Unlinked(chain[1..], i - 1)
  {
    assert Unlinked(chain, i) == [chain[0]] + Unlinked(chain[1..], i - 1);
  }

  lemma {:induction false} LookupUpdated<K, V>(chain: seq<Entry<K, V>>, i: nat, v: V, k: K)
    requires DistinctKeys(chain) && i < |chain|
    ensures DistinctKeys(chain[i := chain[i].(value := v)])
    ensures Lookup(chain[i := chain[i].(value := v)], k) == if k == chain[i].key then Some(v) else Lookup(chain, k)
  {
    if i > 0 {
      LookupUpdated(chain[1..], i - 1, v, k);
      assert chain[i := chain[i].(value := v)] == [chain[0]] + chain[1..][i - 1 := chain[i].(value := v)];
    }
  }

  // ----- counting entries -----

  function Total<T>(buckets: seq<seq<T>>): nat {
    if buckets == [] then 0 else Total(buckets[..|buckets| - 1]) + |buckets[|buckets| - 1]|
  }

  lemma {:induction false} TotalUpdate<T>(buckets: seq<seq<T>>, b: nat, chain: seq<T>)
    requires b < |buckets|
    ensures Total(buckets[b := chain]) == Total(buckets) + |chain| - |buckets[b]|
  {
    var m := |buckets| - 1;
    if b < m {
      TotalUpdate(buckets[..m], b, chain);
      assert buckets[b := chain][..m] == buckets[..m][b := chain];
    } else {
      assert buckets[b := chain][..m] == buckets[..m];
    }
  }

  lemma {:induction false} TotalZero<T>(buckets: seq<seq<T>>)
    ensures Total(buckets) == 0 <==> forall b :: 0 <= b < |buckets| ==> buckets[b] == []
  {
    if buckets != [] {
      var m := |buckets| - 1;
      TotalZero(buckets[..m]);
      assert forall b :: 0 <= b < m ==> buckets[..m][b] == buckets[b];
    }
  }

  lemma {:induction false} TotalEmpty<T>(n: nat)
    ensures Total<T>(seq(n, _ => [])) == 0
  {
    TotalZero(seq<seq<T>>(n, _ => []));
  }

  // ----- tables -----

  ghost predicate ChainOk<K, V>(hash: K -> nat, chain: seq<Entry<K, V>>, b: nat, size: nat)
    requires size > 0
  {
    DistinctKeys(chain) && forall e <- chain :: Slot(hash, e.key, size) == b
  }

  /** Every entry is in the bucket of its hash, no key is there twice, and the entries are counted. */
  ghost predicate TableOk<K, V>(hash: K -> nat, t: Table<K, V>) {
    && t.exp >= -1 && |t.buckets| == CalculateSize(t.exp) && t.used == Total(t.buckets)
    && forall b {:trigger ChainOk(hash, t.buckets[b], b, |t.buckets|)} :: 0 <= b < |t.buckets| ==> ChainOk(hash, t.buckets[b], b, |t.buckets|)
  }

  function EmptyTable<K, V>(): Table<K, V> { Table([], 0, -1) }

  function NewTable<K, V>(exp: nat): Table<K, V> { Table(seq(Pow2(exp), _ => []), 0, exp) }

  lemma NewTableOk<K, V>(hash: K -> nat, exp: nat)
    ensures TableOk(hash, NewTable<K, V>(exp))
  {
    TotalEmpty<Entry<K, V>>(Pow2(exp));
  }

  /** The value a table holds for a key. */
  function Find<K(==), V>(hash: K -> nat, t: Table<K, V>, k: K): Option<V> {
    if t.buckets == [] then None else Lookup(t.buckets[Slot(hash, k, |t.buckets|)], k)
  }

  /** The table with the chain of bucket b replaced. */
  function WithChain<K, V>(t: Table<K, V>, b: nat, chain: seq<Entry<K, V>>): Table<K, V>
    requires b < |t.buckets|
  {
    t.(buckets := t.buckets[b := chain])
  }

  function Push<K, V>(hash: K -> nat, t: Table<K, V>, e: Entry<K, V>): Table<K, V>
    requires t.buckets != []
  {
    var b := Slot(hash, e.key, |t.buckets|);
    WithChain(t, b, [e] + t.buckets[b]).(used := t.used + 1)
  }

  lemma PushOk<K, V>(hash: K -> nat, t: Table<K, V>, e: Entry<K, V>)
    requires TableOk(hash, t) && t.buckets != [] && Find(hash, t, e.key).None?
    ensures TableOk(hash, Push(hash, t, e))
  {
    var b := Slot(hash, e.key, |t.buckets|);
    LookupFinds(t.buckets[b], e.key);
    TotalUpdate(t.buckets, b, [e] + t.buckets[b]);
    assert ChainOk(hash, t.buckets[b], b, |t.buckets|);
    assert ChainOk(hash, [e] + t.buckets[b], b, |t.buckets|);
  }

  lemma FindPushed<K, V>(hash: K -> nat, t: Table<K, V>, e: Entry<K, V>, k: K)
    requires t.buckets != []
    ensures Find(hash, Push(hash, t, e), k) == if k == e.key then Some(e.value) else Find(hash, t, k)
  {
    var b := Slot(hash, e.key, |t.buckets|);
    assert ([e] + t.buckets[b])[1..] == t.buckets[b];
  }

  /** Pushing the entries of a chain one after the other. */
  function PushAll<K, V>(hash: K -> nat, t: Table<K, V>, chain: seq<Entry<K, V>>): (u: Table<K, V>)
    requires t.buckets != []
    ensures |u.buckets| == |t.buckets| && u.exp == t.exp && u.used == t.used + |chain|
  {
    if chain == [] then t else Push(hash, PushAll(hash, t, chain[..|chain| - 1]), chain[|chain| - 1])
  }

  lemma {:induction false} FindPushedAll<K, V>(hash: K -> nat, t: Table<K, V>, chain: seq<Entry<K, V>>, k: K)
    requires t.buckets != [] && DistinctKeys(chain)
    ensures Find(hash, PushAll(hash, t, chain), k) == if Lookup(chain, k).Some? then Lookup(chain, k) else Find(hash, t, k)
  {
    if chain != [] {
      var m := |chain| - 1;
      FindPushedAll(hash, t, chain[..m], k);
      FindPushed(hash, PushAll(hash, t, chain[..m]), chain[m], k);
      LookupUnlinked(chain, m, k);
      LookupAt(chain, m);
      assert Unlinked(chain, m) == chain[..m];
    }
  }

  lemma {:induction false} PushAllOk<K, V>(hash: K -> nat, t: Table<K, V>, chain: seq<Entry<K, V>>)
    requires TableOk(hash, t) && t.buckets != [] && DistinctKeys(chain)
    requires forall e <- chain :: Find(hash, t, e.key).None?
    ensures TableOk(hash, PushAll(hash, t, chain))
  {
    if chain != [] {
      var m := |chain| - 1;
      PushAllOk(hash, t, chain[..m]);
      FindPushedAll(hash, t, chain[..m], chain[m].key);
      LookupFinds(chain[..m], chain[m].key);
      PushOk(hash, PushAll(hash, t, chain[..m]), chain[m]);
    }
  }

  /** The table with bucket b emptied. */
  function Emptied<K, V>(t: Table<K, V>, b: nat): Table<K, V>
    requires b < |t.buckets| && t.used >= |t.buckets[b]|
  {
    WithChain(t, b, []).(used := t.used - |t.buckets[b]|)
  }

  /** Emptying a bucket loses the keys of that bucket and no others. */
  lemma EmptiedBucket<K, V>(hash: K -> nat, t: Table<K, V>, b: nat)
    requires TableOk(hash, t) && b < |t.buckets|
    ensures t.used >= |t.buckets[b]|
    ensures TableOk(hash, Emptied(t, b))
    ensures forall k :: Find(hash, Emptied(t, b), k)
                     == if Lookup(t.buckets[b], k).Some? then None else Find(hash, t, k)
  {
    TotalUpdate(t.buckets, b, []);
    forall k ensures Find(hash, Emptied(t, b), k)
                     == if Lookup(t.buckets[b], k).Some? then None else Find(hash, t, k)
    {
      LookupFinds(t.buckets[b], k);
      assert ChainOk(hash, t.buckets[b], b, |t.buckets|);
    }
  }

  /** The table without the i-th entry of bucket b. */
  function Without<K, V>(t: Table<K, V>, b: nat, i: nat): Table<K, V>
    requires b < |t.buckets| && i < |t.buckets[b]| && t.used > 0
  {
    WithChain(t, b, Unlinked(t.buckets[b], i)).(used := t.used - 1)
  }

  /** The table with a new value in the i-th entry of bucket b. */
  function Assigned<K, V>(t: Table<K, V>, b: nat, i: nat, v: V): Table<K, V>
    requires b < |t.buckets| && i < |t.buckets[b]|
  {
    WithChain(t, b, t.buckets[b][i := t.buckets[b][i].(value := v)])
  }

  /** Unlinking an entry loses its key and no other. */
  lemma UnlinkedOk<K, V>(hash: K -> nat, t: Table<K, V>, b: nat, i: nat)
    requires TableOk(hash, t) && b < |t.buckets| && i < |t.buckets[b]|
    ensures t.used > 0
    ensures var u := Without(t, b, i);
            TableOk(hash, u) && forall k :: Find(hash, u, k) == if k == t.buckets[b][i].key then None else Find(hash, t, k)
  {
    var chain := t.buckets[b];
    assert ChainOk(hash, chain, b, |t.buckets|);
    TotalUpdate(t.buckets, b, Unlinked(chain, i));
    forall k ensures Lookup(Unlinked(chain, i), k) == if k == chain[i].key then None else Lookup(chain, k) {
      LookupUnlinked(chain, i, k);
    }
    LookupUnlinked(chain, i, chain[i].key);
    assert ChainOk(hash, Unlinked(chain, i), b, |t.buckets|);
    assert Slot(hash, chain[i].key, |t.buckets|) == b;
  }

  /** Assigning to an entry changes the value of its key and no other. */
  lemma AssignedOk<K, V>(hash: K -> nat, t: Table<K, V>, b: nat, i: nat, v: V)
    requires TableOk(hash, t) && b < |t.buckets| && i < |t.buckets[b]|
    ensures var u := Assigned(t, b, i, v);
            TableOk(hash, u) && u.used == t.used
            && forall k :: Find(hash, u, k) == if k == t.buckets[b][i].key then Some(v) else Find(hash, t, k)
  {
    var chain := t.buckets[b];
    var chain' := chain[i := chain[i].(value := v)];
    assert ChainOk(hash, chain, b, |t.buckets|);
    TotalUpdate(t.buckets, b, chain');
    forall k ensures Lookup(chain', k) == if k == chain[i].key then Some(v) else Lookup(chain, k) {
      LookupUpdated(chain, i, v, k);
    }
    LookupUpdated(chain, i, v, chain[i].key);
    assert forall j :: 0 <= j < |chain'| ==> chain'[j].key == chain[j].key;
    assert ChainOk(hash, chain', b, |t.buckets|);
    assert Slot(hash, chain[i].key, |t.buckets|) == b;
  }

  /** An entry in a chain is found. */
  lemma EntryFound<K, V>(hash: K -> nat, t: Table<K, V>, b: nat, i: nat)
    requires TableOk(hash, t) && b < |t.buckets| && i < |t.buckets[b]|
    ensures b == Slot(hash, t.buckets[b][i].key, |t.buckets|)
    ensures Find(hash, t, t.buckets[b][i].key) == Some(t.buckets[b][i].value)
  {
    assert ChainOk(hash, t.buckets[b], b, |t.buckets|);
    LookupAt(t.buckets[b], i);
  }

  /** A table that counts no entries holds no key. */
  lemma NothingFound<K, V>(hash: K -> nat, t: Table<K, V>, k: K)
    requires TableOk(hash, t) && t.used == 0
    ensures Find(hash, t, k).None?
  {
    TotalZero(t.buckets);
  }
}
