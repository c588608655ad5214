/** The sorted snapshot index over address ranges: a sweep that builds it and a walk back that reads it. */
module AddressLookups {
  import opened MachineInt
  import opened Sorting

  datatype Item = Item(address: u64, index: nat, valid: bool)

  function AddressOf(i: Item): int { i.address }

  predicate SortedByAddress(s: seq<Item>) {
    forall j, k :: 0 <= j < k < |s| ==> s[j].address <= s[k].address
  }

  lemma {:induction false} SortedByAddressIs(s: seq<Item>)
    ensures SortedByAddress(s) <==> SortedBy(s, AddressOf)
  {
  }

  /** The stable sort by address that the sweep starts with. */
  function SortItems(items: seq<Item>): seq<Item> { StableSort(items, AddressOf) }

  lemma {:induction false} SortItemsSorted(items: seq<Item>)
    ensures SortedByAddress(SortItems(items))
  {
    StableSortSorted(items, AddressOf);
    SortedByAddressIs(SortItems(items));
  }

  /** Indices switched on and not off again by a run of items. */
  function Active(items: seq<Item>): set<nat> {
    if items == [] then {}
    else
      var before, last := Active(items[..|items| - 1]), items[|items| - 1];
      if last.valid then before + {last.index} else before - {last.index}
  }

  /** `i` is recorded at the address of the k-th item. */
  predicate Snapshot(items: seq<Item>, k: nat, a: u64, i: nat) {
    k < |items| && items[k].address == a && i in Active(items[..k + 1])
  }

  /** The entries of the first n items' snapshots, in any order within a snapshot. */
  ghost predicate IsIndexUpTo(lookup: seq<Item>, items: seq<Item>, n: nat) {
    && SortedByAddress(lookup)
    && (forall j :: 0 <= j < |lookup| ==> Recorded(items, n, lookup[j].address, lookup[j].index))
    && (forall k: nat, i: nat ::
          k < n && k < |items| && i in Active(items[..k + 1]) ==> Listed(lookup, items[k].address, i))
  }

  ghost predicate Recorded(items: seq<Item>, n: nat, a: u64, i: nat) {
    exists k: nat :: k < n && Snapshot(items, k, a, i)
  }

  ghost predicate Listed(lookup: seq<Item>, a: u64, i: nat) {
    exists j :: 0 <= j < |lookup| && lookup[j].address == a && lookup[j].index == i
  }

  ghost predicate IsIndex(lookup: seq<Item>, items: seq<Item>) {
    IsIndexUpTo(lookup, items, |items|)
  }

  /** `i` is recorded at the greatest recorded address that is not above `address`. */
  ghost predicate Candidate(lookup: seq<Item>, address: u64, i: nat) {
    exists j :: 0 <= j < |lookup| && lookup[j].index == i && AtNearest(lookup, address, lookup[j].address)
  }

  ghost predicate AtNearest(lookup: seq<Item>, address: u64, a: u64) {
    a <= address && forall j :: 0 <= j < |lookup| && lookup[j].address <= address ==> lookup[j].address <= a
  }

  lemma {:induction false} ActiveNext(sorted: seq<Item>, n: nat)
    requires n < |sorted|
    ensures Active(sorted[..n + 1])
         == if sorted[n].valid then Active(sorted[..n]) + {sorted[n].index} else Active(sorted[..n]) - {sorted[n].index}
  {
    assert sorted[..n + 1][..n] == sorted[..n];
  }

  class AddressLookup {
    var lookup: seq<Item>
    var index: seq<nat>

    constructor ()
      ensures lookup == [] && index == []
    {
      lookup, index := [], [];
    }

    method Clear()
      modifies this`lookup
      ensures lookup == []
    {
      lookup := [];
    }

    /** update: sorts the items and records the active set after each of them. */
    method Update(items: seq<Item>)
      modifies this`lookup
      ensures IsIndex(lookup, SortItems(items))
    {
      var sorted := SortItems(items);
      SortItemsSorted(items);
      var indexSet: set<nat> := {};
      lookup := [];
      var n := 0;
      while n < |sorted|
        invariant n <= |sorted|
        invariant indexSet == Active(sorted[..n])
        invariant IsIndexUpTo(lookup, sorted, n)
        invariant forall j :: 0 <= j < |lookup| && n < |sorted| ==> lookup[j].address <= sorted[n].address
      {
        indexSet := RecordItem(sorted[n], indexSet, sorted, n);
        n := n + 1;
      }
    }

    /** Switches the item's index on or off and records what is active then. */
    method RecordItem(item: Item, indexSet: set<nat>, ghost sorted: seq<Item>, ghost n: nat)
      returns (active: set<nat>)
      requires n < |sorted| && item == sorted[n] && SortedByAddress(sorted) && indexSet == Active(sorted[..n])
      requires IsIndexUpTo(lookup, sorted, n)
      requires forall j :: 0 <= j < |lookup| ==> lookup[j].address <= item.address
      modifies this`lookup
      ensures active == Active(sorted[..n + 1]) && IsIndexUpTo(lookup, sorted, n + 1)
      ensures forall j :: 0 <= j < |lookup| && n + 1 < |sorted| ==> lookup[j].address <= sorted[n + 1].address
    {
      ActiveNext(sorted, n);
      if item.valid {
        active := indexSet + {item.index};
      } else {
        active := indexSet - {item.index};
      }
      ghost var before := lookup;
      RecordSnapshot(item.address, active);
      GrowIndex(before, lookup, sorted, n);
    }

    /** Pushes one entry per active index; the order among them is the set's. */
    method RecordSnapshot(address: u64, indexSet: set<nat>)
      modifies this`lookup
      ensures old(lookup) <= lookup
      ensures forall j :: |old(lookup)| <= j < |lookup| ==> lookup[j].address == address && lookup[j].index in indexSet
      ensures forall i :: i in indexSet ==> Listed(lookup, address, i)
    {
      var rest := indexSet;
      while rest != {}
        invariant rest <= indexSet && old(lookup) <= lookup
        invariant forall j :: |old(lookup)| <= j < |lookup| ==>
                    lookup[j].address == address && lookup[j].index in indexSet
        invariant forall i :: i in indexSet - rest ==> Listed(lookup, address, i)
        decreases |rest|
      {
        var i :| i in rest;
        ghost var was := lookup;
        lookup := lookup + [Item(address, i, true)];
        ListedGrows(was, lookup, address, indexSet - rest);
        assert lookup[|was|].index == i;
        rest := rest - {i};
      }
    }

    /** find: every index recorded at the nearest address at or below the one asked for. */
    method Find(address: u64) returns (r: seq<nat>)
      requires lookup != [] && SortedByAddress(lookup)
      modifies this`index
      ensures r == index
      ensures forall i :: Candidate(lookup, address, i) ==> i in r
      ensures forall i :: i in r ==> Listed0(i)
      ensures lookup[0].address <= address ==> forall i :: i in r ==> Candidate(lookup, address, i)
    {
      SortedByAddressIs(lookup);
      var at := PartitionPoint(lookup, AddressOf, address);
      assert forall j :: at <= j < |lookup| ==> AddressOf(lookup[j]) > address;
      assert forall j :: 0 <= j < at ==> AddressOf(lookup[j]) <= address;
      at := if at == 0 then 0 else at - 1;
      index := [lookup[at].index];
      var found := lookup[at].address;
      ghost var top := at;
      while at > 0
        invariant at <= top < |lookup| && |index| == top - at + 1
        invariant forall j :: at <= j <= top ==> lookup[j].address == found && index[top - j] == lookup[j].index
        decreases at
      {
        if lookup[at - 1].address != found {
          break;
        }
        at := at - 1;
        index := index + [lookup[at].index];
      }
      r := index;
      FoundAll(lookup, address, index, at, top);
    }

    ghost predicate Listed0(i: nat)
      reads this`lookup
    {
      exists j :: 0 <= j < |lookup| && lookup[j].index == i
    }
  }

  /** A run of entries at one address, bounded by other addresses, is every entry at the nearest address. */
  lemma {:induction false} FoundAll(lookup: seq<Item>, address: u64, index: seq<nat>, at: nat, top: nat)
    requires SortedByAddress(lookup) && at <= top < |lookup| && |index| == top - at + 1
    requires forall j :: at <= j <= top ==>
               lookup[j].address == lookup[top].address && index[top - j] == lookup[j].index
    requires at == 0 || lookup[at - 1].address != lookup[top].address
    requires forall j :: top < j < |lookup| ==> lookup[j].address > address
    requires forall j :: 0 <= j < top ==> lookup[j].address <= address
    requires lookup[top].address <= address || top == 0
    ensures forall i :: Candidate(lookup, address, i) ==> i in index
    ensures forall i :: i in index ==> exists j :: 0 <= j < |lookup| && lookup[j].index == i
    ensures lookup[0].address <= address ==> forall i :: i in index ==> Candidate(lookup, address, i)
  {
    forall i | Candidate(lookup, address, i)
      ensures i in index
    {
      var j :| 0 <= j < |lookup| && lookup[j].index == i && AtNearest(lookup, address, lookup[j].address);
      assert at <= j <= top;
      assert index[top - j] == i;
    }
    forall i | i in index
      ensures exists j :: 0 <= j < |lookup| && lookup[j].index == i
      ensures lookup[0].address <= address ==> Candidate(lookup, address, i)
    {
      var t :| 0 <= t < |index| && index[t] == i;
      var j := top - t;
      assert lookup[j].index == i;
      if lookup[0].address <= address {
        assert AtNearest(lookup, address, lookup[j].address);
      }
    }
  }

  lemma {:induction false} ListedGrows(was: seq<Item>, now: seq<Item>, a: u64, s: set<nat>)
    requires was <= now && forall i :: i in s ==> Listed(was, a, i)
    ensures forall i :: i in s ==> Listed(now, a, i)
  {
  }

  lemma {:induction false} GrowIndex(before: seq<Item>, now: seq<Item>, items: seq<Item>, n: nat)
    requires n < |items| && SortedByAddress(items) && before <= now && IsIndexUpTo(before, items, n)
    requires forall j :: 0 <= j < |before| ==> before[j].address <= items[n].address
    requires forall j :: |before| <= j < |now| ==>
      now[j].address == items[n].address && now[j].index in Active(items[..n + 1])
    requires forall i :: i in Active(items[..n + 1]) ==> Listed(now, items[n].address, i)
    ensures IsIndexUpTo(now, items, n + 1)
    ensures n + 1 < |items| ==> forall j :: 0 <= j < |now| ==> now[j].address <= items[n + 1].address
  {
    assert forall j :: 0 <= j < |before| ==> now[j] == before[j];
    forall j | 0 <= j < |now|
      ensures Recorded(items, n + 1, now[j].address, now[j].index)
    {
      if j < |before| {
        assert Recorded(items, n, before[j].address, before[j].index);
        var k: nat :| k < n && Snapshot(items, k, before[j].address, before[j].index);
      } else {
        assert Snapshot(items, n, now[j].address, now[j].index);
      }
    }
    forall k: nat, i: nat | k < n + 1 && k < |items| && i in Active(items[..k + 1])
      ensures Listed(now, items[k].address, i)
    {
      if k < n {
        assert Listed(before, items[k].address, i);
        ListedGrows(before, now, items[k].address, {i});
      }
    }
  }
}
