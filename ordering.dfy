/** sorted(configs.items(), key=lambda x: int(x[0].split(':')[0].split()[-1])):
    the groups ordered by the integer ordinal of their Configuration, ties in
    first-appearance order. */
module Ordering {
  import opened Wrappers
  import opened ConfigKeys
  import opened Grouping
  import opened StableSort
  import opened Sequences

  predicate HasOrdinal(e: Entry) {
    Ordinal(e.0).Some?
  }

  /** The ordinal of an entry, used once every entry is known to have one. */
  function SortKey(e: Entry): int {
    match Ordinal(e.0)
    case Some(k) => k
    case None => 0
  }

  /** The sorted items, or the Configuration whose ordinal cannot be read
      (Python raises ValueError or IndexError there). On success the result is
      a permutation of the items, ordered non-decreasingly by ordinal, and the
      items that share an ordinal keep their relative order. Python computes
      every key before it orders anything, so the first item whose key raises
      aborts the sort. */
  function SortByOrdinal(entries: seq<Entry>): (r: Result<seq<Entry>, string>)
    ensures r.Failure? <==> exists i :: 0 <= i < |entries| && !HasOrdinal(entries[i])
    ensures r.Failure? ==> exists i :: 0 <= i < |entries| && entries[i].0 == r.error
                                      && !HasOrdinal(entries[i])
                                      && forall j :: 0 <= j < i ==> HasOrdinal(entries[j])
    ensures r.Success? ==> |r.value| == |entries| && multiset(r.value) == multiset(entries)
    ensures r.Success? ==> forall i :: 0 <= i < |r.value| ==> Ordinal(r.value[i].0) == Some(SortKey(r.value[i]))
    ensures r.Success? ==> forall i, j :: 0 <= i < j < |r.value| ==> SortKey(r.value[i]) <= SortKey(r.value[j])
    ensures r.Success? ==> forall k :: WithKey(r.value, SortKey, k) == WithKey(entries, SortKey, k)
  {
    match FirstFailing(entries, HasOrdinal)
    case Some(i) => Failure(entries[i].0)
    case None =>
      SortIsStableSort(entries, SortKey);
      var sorted := Sort(entries, SortKey);
      assert forall i :: 0 <= i < |sorted| ==> sorted[i] in multiset(entries);
      Success(sorted)
  }
}
