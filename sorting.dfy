/**
 * The `useSortableData` hook of the client: a sort configuration held as
 * component state, the comparator it hands to `Array.prototype.sort`, and
 * the sort itself on a fresh copy of the caller's array.
 */
module Sorting {
  import opened Wrappers
  import opened Records

  datatype Direction = Ascending | Descending

  datatype SortConfig = SortConfig(key: string, direction: Direction)

  /** `a[key]` is not after `b[key]` in the requested direction. */
  predicate InOrder(a: Record, b: Record, cfg: SortConfig) {
    if cfg.direction == Ascending then !Less(Field(b, cfg.key), Field(a, cfg.key))
    else !Less(Field(a, cfg.key), Field(b, cfg.key))
  }

  /** The comparator passed to `sort`: negative, zero or positive. */
  function Compare(a: Record, b: Record, cfg: SortConfig): (c: int)
    ensures -1 <= c <= 1
    ensures c == 0 <==> !Less(Field(a, cfg.key), Field(b, cfg.key)) && !Less(Field(b, cfg.key), Field(a, cfg.key))
    ensures c <= 0 <==> InOrder(a, b, cfg)
  {
    var av, bv := Field(a, cfg.key), Field(b, cfg.key);
    LessAsymmetric(av, bv);
    if Less(av, bv) then (if cfg.direction == Ascending then -1 else 1)
    else if Less(bv, av) then (if cfg.direction == Ascending then 1 else -1)
    else 0
  }

  /** When two records are out of order, the swapped pair is in order. */
  lemma InOrderFlip(a: Record, b: Record, cfg: SortConfig)
    requires !InOrder(a, b, cfg)
    ensures InOrder(b, a, cfg)
  {
    LessAsymmetric(Field(a, cfg.key), Field(b, cfg.key));
  }

  /** What `sort` guarantees with this comparator: no neighbour pair it would swap. */
  ghost predicate AdjacentInOrder(s: seq<Record>, cfg: SortConfig) {
    forall k :: 0 < k < |s| ==> InOrder(s[k - 1], s[k], cfg)
  }

  /** Every pair, not just neighbours, is in order. */
  ghost predicate Ordered(s: seq<Record>, cfg: SortConfig) {
    forall p, q :: 0 <= p < q < |s| ==> InOrder(s[p], s[q], cfg)
  }

  /** All records share the schema on the sort key: present, and all strings or all numbers. */
  ghost predicate SameKindAt(s: seq<Record>, key: string) {
    (forall r: Record :: r in s ==> key in r && r[key].Str?) || (forall r: Record :: r in s ==> key in r && !r[key].Str?)
  }

  lemma InOrderTransitive(a: Record, b: Record, c: Record, cfg: SortConfig)
    requires Comparable(Field(a, cfg.key), Field(b, cfg.key)) && Comparable(Field(b, cfg.key), Field(c, cfg.key))
    requires InOrder(a, b, cfg) && InOrder(b, c, cfg)
    ensures InOrder(a, c, cfg)
  {
    var av, bv, cv := Field(a, cfg.key), Field(b, cfg.key), Field(c, cfg.key);
    if cfg.direction == Ascending { NotLessTransitive(av, bv, cv); }
    else { NotLessTransitive(cv, bv, av); }
  }

  /** On a shared schema, neighbourwise order is total order, in either direction. */
  lemma {:induction false} AdjacentInOrderIsOrdered(s: seq<Record>, cfg: SortConfig)
    requires SameKindAt(s, cfg.key)
    requires AdjacentInOrder(s, cfg)
    ensures Ordered(s, cfg)
  {
    if |s| > 1 {
      var init := s[..|s| - 1];
      assert forall r :: r in init ==> r in s;
      AdjacentInOrderIsOrdered(init, cfg);
      var n := |s| - 1;
      forall p | 0 <= p < n ensures InOrder(s[p], s[n], cfg) {
        if p < n - 1 {
          assert init[p] == s[p] && init[n - 1] == s[n - 1];
          assert s[p] in s && s[n - 1] in s && s[n] in s;
          InOrderTransitive(s[p], s[n - 1], s[n], cfg);
        }
      }
      forall p, q | 0 <= p < q < |s| ensures InOrder(s[p], s[q], cfg) {
        if q < n { assert init[p] == s[p] && init[q] == s[q]; }
      }
    }
  }

  /** Ascending order stated on the field values: `a[key] <= b[key]` for every earlier `a`. */
  lemma AscendingMeansNonDecreasing(s: seq<Record>, key: string, p: int, q: int)
    requires SameKindAt(s, key)
    requires AdjacentInOrder(s, SortConfig(key, Ascending))
    requires 0 <= p < q < |s|
    ensures !Less(Field(s[q], key), Field(s[p], key))
  {
    AdjacentInOrderIsOrdered(s, SortConfig(key, Ascending));
  }

  /** Descending order stated on the field values: `a[key] >= b[key]` for every earlier `a`. */
  lemma DescendingMeansNonIncreasing(s: seq<Record>, key: string, p: int, q: int)
    requires SameKindAt(s, key)
    requires AdjacentInOrder(s, SortConfig(key, Descending))
    requires 0 <= p < q < |s|
    ensures !Less(Field(s[p], key), Field(s[q], key))
  {
    AdjacentInOrderIsOrdered(s, SortConfig(key, Descending));
  }

  /** `sortableItems.sort(comparator)`: insertion sort by neighbour swaps, in place. */
  method SortInPlace(a: array<Record>, cfg: SortConfig)
    modifies a
    ensures AdjacentInOrder(a[..], cfg)
    ensures multiset(a[..]) == multiset(old(a[..]))
  {
    var i := 0;
    while i < a.Length
      invariant 0 <= i <= a.Length
      invariant forall k :: 0 < k < i ==> InOrder(a[k - 1], a[k], cfg)
      invariant multiset(a[..]) == multiset(old(a[..]))
    {
      Insert(a, i, cfg);
      i := i + 1;
    }
  }

  /** One outer step: sinks `a[i]` into the ordered prefix `a[..i]`. */
  method Insert(a: array<Record>, i: int, cfg: SortConfig)
    requires 0 <= i < a.Length
    requires forall k :: 0 < k < i ==> InOrder(a[k - 1], a[k], cfg)
    modifies a
    ensures forall k :: 0 < k <= i ==> InOrder(a[k - 1], a[k], cfg)
    ensures multiset(a[..]) == multiset(old(a[..]))
  {
    var j := i;
    while 0 < j && Compare(a[j - 1], a[j], cfg) > 0
      invariant 0 <= j <= i
      invariant forall k :: 0 < k <= i && k != j ==> InOrder(a[k - 1], a[k], cfg)
      invariant 0 < j < i ==> InOrder(a[j - 1], a[j + 1], cfg)
      invariant multiset(a[..]) == multiset(old(a[..]))
    {
      InOrderFlip(a[j - 1], a[j], cfg);
      Swap(a, j);
      j := j - 1;
    }
  }

  /** Exchanges `a[j - 1]` and `a[j]`. */
  method Swap(a: array<Record>, j: int)
    requires 0 < j < a.Length
    modifies a
    ensures a[j - 1] == old(a[j]) && a[j] == old(a[j - 1])
    ensures forall k :: 0 <= k < a.Length && k != j - 1 && k != j ==> a[k] == old(a[k])
    ensures multiset(a[..]) == multiset(old(a[..]))
  {
    a[j - 1], a[j] := a[j], a[j - 1];
  }

  /** `requestSort(key)`: same key while ascending flips to descending, anything else is ascending. */
  function NextConfig(prev: Option<SortConfig>, key: string): (c: SortConfig)
    ensures c.key == key
    ensures c.direction == Descending <==> prev == Some(SortConfig(key, Ascending))
  {
    if prev.Some? && prev.value.key == key && prev.value.direction == Ascending
    then SortConfig(key, Descending)
    else SortConfig(key, Ascending)
  }

  /** Pressing the same header three times from any state cycles ascending/descending. */
  lemma RequestSortCycles(prev: Option<SortConfig>, key: string)
    ensures var once := NextConfig(prev, key);
            var twice := NextConfig(Some(once), key);
            twice.direction != once.direction && NextConfig(Some(twice), key) == once
  {
  }

  /** The hook's state: the current sort configuration (`null` is `None`). */
  class SortableData {
    var sortConfig: Option<SortConfig>

    /** `useSortableData(items, config = null)`: the initial state is the given configuration. */
    constructor (config: Option<SortConfig>)
      ensures sortConfig == config
    {
      sortConfig := config;
    }

    method RequestSort(key: string)
      modifies this
      ensures sortConfig == Some(NextConfig(old(sortConfig), key))
    {
      var direction := Ascending;
      if sortConfig.Some? && sortConfig.value.key == key && sortConfig.value.direction == Ascending {
        direction := Descending;
      }
      sortConfig := Some(SortConfig(key, direction));
    }

    /** The memoised `sortedItems`: the caller's array is copied, never changed. */
    method SortedItems(items: array?<Record>) returns (sorted: seq<Record>)
      ensures items == null ==> sorted == []
      ensures items != null ==> multiset(sorted) == multiset(items[..])
      ensures items != null && sortConfig.None? ==> sorted == items[..]
      ensures sortConfig.Some? ==> AdjacentInOrder(sorted, sortConfig.value)
    {
      if items == null {
        return [];
      }
      var copy := new Record[items.Length](i requires 0 <= i < items.Length reads items => items[i]);
      assert copy[..] == items[..];
      if sortConfig.Some? {
        SortInPlace(copy, sortConfig.value);
      }
      sorted := copy[..];
    }
  }
}
