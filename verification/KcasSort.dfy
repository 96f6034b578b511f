/** The in-place sort by address that `execute` applies to a KCAS descriptor. */
module KcasSort {
  import opened KcasModel

  ghost predicate SortedByAddr(es: seq<KEntry>) {
    forall i, j :: 0 <= i < j < |es| ==> es[i].addr <= es[j].addr
  }

  /** The first n entries are those of t in some order, the others are in place. */
  ghost predicate Rearranged(s: seq<KEntry>, t: seq<KEntry>, n: nat)
    requires n <= |s| == |t|
  {
    multiset(s[..n]) == multiset(t[..n]) && s[n..] == t[n..]
  }

  lemma SwapKeepsMultiset(s: seq<KEntry>, j: nat)
    requires j + 1 < |s|
    ensures multiset(s[j := s[j + 1]][j + 1 := s[j]]) == multiset(s)
  {
    assert s == s[..j] + [s[j]] + [s[j + 1]] + s[j + 2..];
    assert s[j := s[j + 1]][j + 1 := s[j]] == s[..j] + [s[j + 1]] + [s[j]] + s[j + 2..];
  }

  method SwapAdjacent(entries: array<KEntry>, j: nat, n: nat)
    requires j + 1 < n <= entries.Length
    modifies entries
    ensures entries[j] == old(entries[j + 1]) && entries[j + 1] == old(entries[j])
    ensures forall p :: 0 <= p < entries.Length && p != j && p != j + 1 ==> entries[p] == old(entries[p])
    ensures Rearranged(entries[..], old(entries[..]), n)
  {
    var temp := entries[j];
    entries[j] := entries[j + 1];
    entries[j + 1] := temp;
    ghost var was := old(entries[..]);
    assert entries[..][..n] == was[..n][j := was[j + 1]][j + 1 := was[j]];
    SwapKeepsMultiset(was[..n], j);
    assert entries[..][n..] == was[n..];
  }

  ghost predicate SortedFrom(entries: array<KEntry>, n: nat, m: int)
    requires n <= entries.Length
    reads entries
  {
    forall p, q :: 0 <= p < q < n && m <= q ==> entries[p].addr <= entries[q].addr
  }

  /** One pass: the largest of the first m entries moves to their end.  Without a swap they were sorted. */
  method BubblePass(entries: array<KEntry>, n: nat, m: nat, swapped: bool) returns (swapped': bool)
    requires 0 < m <= n <= entries.Length && SortedFrom(entries, n, m)
    modifies entries
    ensures SortedFrom(entries, n, m - 1) && (swapped ==> swapped')
    ensures !swapped' ==> SortedFrom(entries, n, 0)
    ensures Rearranged(entries[..], old(entries[..]), n)
  {
    swapped' := swapped;
    var j := 0;
    while j < m - 1
      invariant 0 <= j <= m - 1
      invariant Rearranged(entries[..], old(entries[..]), n)
      invariant SortedFrom(entries, n, m)
      invariant forall p :: 0 <= p < j ==> entries[p].addr <= entries[j].addr
      invariant !swapped' ==> forall p, q :: 0 <= p < q <= j ==> entries[p].addr <= entries[q].addr
      invariant swapped ==> swapped'
    {
      if entries[j].addr > entries[j + 1].addr {
        SwapAdjacent(entries, j, n);
        swapped' := true;
      }
      j := j + 1;
    }
  }

  /** `swapped` is never reset, so the early exit can only be taken after the first pass. */
  method KcasdescSort(entries: array<KEntry>, numEntries: nat)
    requires numEntries <= entries.Length
    modifies entries
    ensures SortedByAddr(entries[..numEntries])
    ensures multiset(entries[..numEntries]) == multiset(old(entries[..numEntries]))
    ensures entries[numEntries..] == old(entries[numEntries..])
  {
    var n := numEntries;
    var swapped := false;
    var i := 0;
    while i < n
      invariant 0 <= i <= n
      invariant Rearranged(entries[..], old(entries[..]), n)
      invariant SortedFrom(entries, n, n - i)
    {
      swapped := BubblePass(entries, n, n - i, swapped);
      if !swapped { break; }
      i := i + 1;
    }
  }

  /** Sorting does not disturb what the caller promised about the entries, and gives strict order. */
  lemma SortKeepsProper(es: seq<KEntry>, sorted: seq<KEntry>, size: nat)
    requires ProperEntries(es, size) && multiset(sorted) == multiset(es) && SortedByAddr(sorted)
    ensures ProperEntries(sorted, size)
    ensures forall i, j :: 0 <= i < j < |sorted| ==> sorted[i].addr < sorted[j].addr
  {
    forall e: KEntry | e in sorted ensures e in es && e.addr < size { assert e in multiset(sorted); }
    forall i | 0 <= i < |sorted| ensures sorted[i].addr < size { assert sorted[i] in sorted; }
    forall i, j | 0 <= i < j < |sorted| ensures sorted[i].addr != sorted[j].addr {
      if sorted[i].addr == sorted[j].addr {
        SameAddrSameEntry(es, size, sorted[i], sorted[j]);
        TwoOccurrences(sorted, i, j);
        OneOccurrence(es, size, sorted[i]);
      }
    }
  }

  lemma SameAddrSameEntry(es: seq<KEntry>, size: nat, a: KEntry, b: KEntry)
    requires ProperEntries(es, size) && a in es && b in es && a.addr == b.addr
    ensures a == b
  {
  }

  lemma TwoOccurrences(s: seq<KEntry>, i: nat, j: nat)
    requires i < j < |s| && s[i] == s[j]
    ensures multiset(s)[s[i]] >= 2
  {
    assert s == s[..j] + s[j..];
    assert s[i] in s[..j] && s[i] in s[j..] by { assert s[..j][i] == s[i] && s[j..][0] == s[j]; }
    assert multiset(s) == multiset(s[..j]) + multiset(s[j..]);
  }

  lemma {:induction false} OneOccurrence(es: seq<KEntry>, size: nat, e: KEntry)
    requires ProperEntries(es, size)
    ensures multiset(es)[e] <= 1
  {
    if es != [] {
      assert es == [es[0]] + es[1..];
      OneOccurrence(es[1..], size, e);
      if es[0] == e { assert e !in es[1..]; }
    }
  }
}
