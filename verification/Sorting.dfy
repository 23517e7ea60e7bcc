/** What a sort of map entries does, whichever algorithm does it. */
module Sorting {
  import opened VoxelMap

  predicate DistinctKeys(entries: seq<Entry>) {
    forall i, j | 0 <= i < j < |entries| :: entries[i].key != entries[j].key
  }

  /** No entry comes before one with a smaller key; entries with equal keys may come in any order. */
  predicate NoInversions(entries: seq<Entry>) {
    forall i, j | 0 <= i < j < |entries| :: !KeyLess(entries[j].key, entries[i].key)
  }

  function InsertSorted(entries: seq<Entry>, e: Entry): seq<Entry> {
    if entries == [] || KeyLess(entries[|entries| - 1].key, e.key) then entries + [e]
    else InsertSorted(entries[..|entries| - 1], e) + [entries[|entries| - 1]]
  }

  lemma {:induction false} InsertKeepsSorted(entries: seq<Entry>, e: Entry)
    requires SortedByKey(entries) && forall x | x in entries :: x.key != e.key
    ensures SortedByKey(InsertSorted(entries, e))
    ensures |InsertSorted(entries, e)| == |entries| + 1
    ensures forall x :: x in InsertSorted(entries, e) <==> x in entries || x == e
  {
    if entries != [] && !KeyLess(entries[|entries| - 1].key, e.key) {
      var front, last := entries[..|entries| - 1], entries[|entries| - 1];
      InsertKeepsSorted(front, e);
      assert entries == front + [last];
      forall x | x in InsertSorted(front, e)
        ensures KeyLess(x.key, last.key)
      {
        if x == e {
          assert last in entries;
        }
      }
    }
  }

  /** A sorted list; keys being unique, any sorting algorithm gives this one. */
  function Sorted(entries: seq<Entry>): seq<Entry> {
    if entries == [] then [] else InsertSorted(Sorted(entries[..|entries| - 1]), entries[|entries| - 1])
  }

  lemma {:induction false} SortedIsSorted(entries: seq<Entry>)
    requires DistinctKeys(entries)
    ensures SortedByKey(Sorted(entries)) && |Sorted(entries)| == |entries|
    ensures forall x :: x in Sorted(entries) <==> x in entries
  {
    if entries != [] {
      var front, last := entries[..|entries| - 1], entries[|entries| - 1];
      SortedIsSorted(front);
      assert entries == front + [last];
      InsertKeepsSorted(Sorted(front), last);
    }
  }

  lemma {:induction false} InsertKeepsOrder(entries: seq<Entry>, e: Entry)
    requires NoInversions(entries)
    ensures NoInversions(InsertSorted(entries, e))
    ensures multiset(InsertSorted(entries, e)) == multiset(entries) + multiset{e}
  {
    if entries != [] {
      var front, last := entries[..|entries| - 1], entries[|entries| - 1];
      assert entries == front + [last];
      if !KeyLess(last.key, e.key) {
        InsertKeepsOrder(front, e);
        forall x | x in InsertSorted(front, e)
          ensures !KeyLess(last.key, x.key)
        {
          assert x in multiset(front) + multiset{e};
        }
      }
    }
  }

  /** Equal keys or not, sorting only reorders. */
  lemma {:induction false} SortedHasNoInversions(entries: seq<Entry>)
    ensures NoInversions(Sorted(entries)) && multiset(Sorted(entries)) == multiset(entries)
    ensures |Sorted(entries)| == |entries| && forall e :: e in Sorted(entries) <==> e in entries
  {
    if entries != [] {
      var front, last := entries[..|entries| - 1], entries[|entries| - 1];
      SortedHasNoInversions(front);
      InsertKeepsOrder(Sorted(front), last);
      assert entries == front + [last];
    }
    assert |multiset(Sorted(entries))| == |multiset(entries)|;
    assert forall e :: e in Sorted(entries) <==> e in multiset(Sorted(entries));
  }

  lemma SortedLength(entries: seq<Entry>)
    ensures |Sorted(entries)| == |entries|
  {
    SortedHasNoInversions(entries);
  }

  lemma EntryCountedOnce(entries: seq<Entry>, i: nat)
    requires DistinctKeys(entries) && i < |entries|
    ensures multiset(entries)[entries[i]] == 1
  {
    var before, after := entries[..i], entries[i + 1..];
    assert entries == before + [entries[i]] + after;
    assert entries[i] !in before && entries[i] !in after;
  }

  lemma EntryCountedTwice(entries: seq<Entry>, i: nat, j: nat)
    requires i < j < |entries| && entries[i] == entries[j]
    ensures multiset(entries)[entries[i]] >= 2
  {
    assert entries == entries[..j] + [entries[j]] + entries[j + 1..];
    assert entries[..j][i] == entries[i];
    assert entries[i] in multiset(entries[..j]);
  }

  lemma ReorderedKeysDistinct(entries: seq<Entry>, other: seq<Entry>)
    requires DistinctKeys(entries) && multiset(other) == multiset(entries)
    ensures DistinctKeys(other)
  {
    forall i, j | 0 <= i < j < |other|
      ensures other[i].key != other[j].key
    {
      assert other[i] in multiset(entries) && other[j] in multiset(entries);
      var a :| 0 <= a < |entries| && entries[a] == other[i];
      EntryCountedOnce(entries, a);
      if other[i] == other[j] {
        EntryCountedTwice(other, i, j);
        assert false;
      }
    }
  }

  /** With unique keys there is one way to sort. */
  lemma OneSort(entries: seq<Entry>, other: seq<Entry>)
    requires DistinctKeys(entries) && multiset(other) == multiset(entries) && NoInversions(other)
    ensures other == Sorted(entries)
  {
    ReorderedKeysDistinct(entries, other);
    SortedHasNoInversions(entries);
    ReorderedKeysDistinct(entries, Sorted(entries));
    ListsItsMap(entries, other);
    ListsItsMap(entries, Sorted(entries));
    SortedListIsUnique(other, Sorted(entries), MapOf(entries));
  }

  ghost function MapOf(entries: seq<Entry>): map<Key, VoxelAccum>
    requires DistinctKeys(entries)
  {
    map i | 0 <= i < |entries| :: entries[i].key := entries[i].accum
  }

  lemma ListsItsMap(entries: seq<Entry>, other: seq<Entry>)
    requires DistinctKeys(entries) && DistinctKeys(other) && multiset(other) == multiset(entries) && NoInversions(other)
    ensures Lists(other, MapOf(entries)) && SortedByKey(other)
  {
    assert |multiset(other)| == |multiset(entries)|;
    DistinctKeysCount(entries);
    assert MapOf(entries).Keys == set i | 0 <= i < |entries| :: entries[i].key;
    forall e | e in other
      ensures e.key in MapOf(entries) && MapOf(entries)[e.key] == e.accum
    {
      assert e in multiset(entries);
    }
  }
}
