/** The mapping lookup: a linear scan, the cached index that replaces it, and exactly where they differ. */
module Mappings {
  import opened MachineInt
  import opened Outcome
  import opened Sorting
  import opened AddressLookups

  datatype Mapping = Mapping(time: u64, start: u64, end: u64) {
    predicate ContainsIp(ip: u64) { start <= ip <= end }
  }

  const NO_TIME: u64 := TWO_64 - 1

  /** The two endpoints of every mapping, in the order build_lookup pushes them. */
  function Endpoints(ms: seq<Mapping>): seq<Item> {
    if ms == [] then []
    else
      var n := |ms| - 1;
      Endpoints(ms[..n]) + [Item(ms[n].start, n, true), Item(ms[n].end, n, false)]
  }

  function StartItem(ms: seq<Mapping>, m: nat): Item
    requires m < |ms|
  {
    Item(ms[m].start, m, true)
  }

  function EndItem(ms: seq<Mapping>, m: nat): Item
    requires m < |ms|
  {
    Item(ms[m].end, m, false)
  }

  predicate WellFormed(ms: seq<Mapping>) {
    forall m :: 0 <= m < |ms| ==> ms[m].start <= ms[m].end
  }

  /** What a lookup may return for an address and a time. */
  predicate Eligible(ms: seq<Mapping>, a: u64, t: u64, m: nat) {
    m < |ms| && ms[m].ContainsIp(a) && ms[m].time <= t
  }

  predicate TouchesAt(ms: seq<Mapping>, a: u64, m: nat) {
    m < |ms| && (ms[m].start == a || ms[m].end == a)
  }

  /**
   The one mapping the index cannot see at `a`: it ends there, was open before, is the first with an
   endpoint there, and is not alone.
   */
  ghost predicate Missed(ms: seq<Mapping>, a: u64, m: nat) {
    && m < |ms| && ms[m].start < ms[m].end == a
    && (forall o: nat :: TouchesAt(ms, a, o) ==> m <= o)
    && exists o: nat :: o < |ms| && o != m && ms[o].ContainsIp(a)
  }

  /** Every mapping is visible to the scan, all but the missed one to the index. */
  ghost predicate Visible(ms: seq<Mapping>, a: u64, indexed: bool, m: nat) {
    !indexed || !Missed(ms, a, m)
  }

  /** `r` is a visible eligible mapping with the latest time, or None if there is none. */
  ghost predicate IsBest(ms: seq<Mapping>, a: u64, t: u64, indexed: bool, r: Option<nat>) {
    match r
    case None => forall m: nat :: Eligible(ms, a, t, m) ==> !Visible(ms, a, indexed, m)
    case Some(b) =>
      && Eligible(ms, a, t, b) && Visible(ms, a, indexed, b)
      && forall m: nat :: Eligible(ms, a, t, m) && Visible(ms, a, indexed, m) ==> ms[m].time <= ms[b].time
  }

  /** The answer of the scan: the first of the latest eligible mappings. */
  ghost predicate IsScanned(ms: seq<Mapping>, a: u64, t: u64, r: Option<nat>) {
    && IsBest(ms, a, t, false, r)
    && (r.Some? ==> forall m: nat :: m < r.value && Eligible(ms, a, t, m) ==> ms[m].time < ms[r.value].time)
  }

  /** The scan gives the same answer at two times between which no mapping of the address appears. */
  lemma {:induction false} ScanIsUnchanged(ms: seq<Mapping>, a: u64, s: u64, t: u64, x: Option<nat>, y: Option<nat>)
    requires IsScanned(ms, a, s, x) && IsScanned(ms, a, t, y)
    requires forall m :: 0 <= m < |ms| && ms[m].ContainsIp(a) ==> (ms[m].time <= s <==> ms[m].time <= t)
    ensures x == y
  {
    assert forall m: nat :: Eligible(ms, a, s, m) <==> Eligible(ms, a, t, m);
    assert forall m: nat :: Visible(ms, a, false, m);
  }

  // --- positions in the sorted endpoint list -----------------------------------------------

  function Ordinal(i: Item): nat { 2 * i.index + (if i.valid then 0 else 1) }

  predicate Before(x: Item, y: Item) {
    x.address < y.address || (x.address == y.address && Ordinal(x) < Ordinal(y))
  }

  predicate LexSorted(s: seq<Item>) {
    forall j, k :: 0 <= j < k < |s| ==> Before(s[j], s[k])
  }

  lemma {:induction false} InsertLex(s: seq<Item>, x: Item)
    requires LexSorted(s) && forall y :: y in s ==> Ordinal(y) < Ordinal(x)
    ensures LexSorted(Insert(s, x, AddressOf))
    ensures forall y :: y in Insert(s, x, AddressOf) <==> y in s || y == x
  {
    if s != [] && s[|s| - 1].address > x.address {
      var init, last := s[..|s| - 1], s[|s| - 1];
      assert s == init + [last];
      InsertLex(init, x);
      forall y | y in Insert(init, x, AddressOf)
        ensures Before(y, last)
      {
      }
    }
  }

  lemma {:induction false} SortItemsLex(items: seq<Item>)
    requires forall j, k :: 0 <= j < k < |items| ==> Ordinal(items[j]) < Ordinal(items[k])
    ensures LexSorted(SortItems(items))
    ensures forall y :: y in SortItems(items) <==> y in items
  {
    if items != [] {
      var init, last := items[..|items| - 1], items[|items| - 1];
      assert items == init + [last];
      SortItemsLex(init);
      forall y | y in SortItems(init)
        ensures Ordinal(y) < Ordinal(last)
      {
        var j :| 0 <= j < |init| && init[j] == y;
      }
      InsertLex(SortItems(init), last);
    }
  }

  function EndpointAt(ms: seq<Mapping>, j: nat): Item
    requires j < 2 * |ms|
  {
    if j % 2 == 0 then StartItem(ms, j / 2) else EndItem(ms, j / 2)
  }

  lemma {:induction false} EndpointAtPrefix(ms: seq<Mapping>, n: nat, j: nat)
    requires n <= |ms| && j < 2 * n
    ensures EndpointAt(ms, j) == EndpointAt(ms[..n], j)
  {
  }

  lemma {:induction false} EndpointAtLast(ms: seq<Mapping>, n: nat)
    requires n < |ms|
    ensures EndpointAt(ms, 2 * n) == StartItem(ms, n) && EndpointAt(ms, 2 * n + 1) == EndItem(ms, n)
  {
  }

  /** An endpoint is that of a mapping, and stands where its ordinal says. */
  lemma {:induction false} EndpointAtIs(ms: seq<Mapping>, j: nat)
    requires j < 2 * |ms|
    ensures var y := EndpointAt(ms, j); Ordinal(y) == j && IsEndpoint(ms, y)
  {
  }

  predicate IsEndpoint(ms: seq<Mapping>, y: Item) {
    y.index < |ms| && y == if y.valid then StartItem(ms, y.index) else EndItem(ms, y.index)
  }

  lemma {:induction false} EndpointsAre(ms: seq<Mapping>)
    ensures |Endpoints(ms)| == 2 * |ms|
    ensures forall j :: 0 <= j < 2 * |ms| ==> Endpoints(ms)[j] == EndpointAt(ms, j)
  {
    if ms != [] {
      var n := |ms| - 1;
      var e := Endpoints(ms[..n]);
      EndpointsAre(ms[..n]);
      EndpointAtLast(ms, n);
      assert Endpoints(ms) == e + [StartItem(ms, n), EndItem(ms, n)];
      forall j | 0 <= j < 2 * n
        ensures e[j] == EndpointAt(ms, j)
      {
        EndpointAtPrefix(ms, n, j);
      }
    }
  }

  function Sweep(ms: seq<Mapping>): seq<Item> { SortItems(Endpoints(ms)) }

  /** The sorted list holds the start of `m` at `p` and its end at `q`. */
  predicate Spans(ms: seq<Mapping>, s: seq<Item>, m: nat, p: nat, q: nat) {
    m < |ms| && p < q < |s| && s[p] == StartItem(ms, m) && s[q] == EndItem(ms, m)
  }

  predicate IsSweep(ms: seq<Mapping>, s: seq<Item>) {
    && LexSorted(s)
    && (forall y :: y in s ==> IsEndpoint(ms, y))
    && (forall m: nat :: m < |ms| ==> StartItem(ms, m) in s && EndItem(ms, m) in s)
  }

  lemma {:induction false} SweepIs(ms: seq<Mapping>)
    ensures IsSweep(ms, Sweep(ms))
  {
    var e := Endpoints(ms);
    EndpointsAre(ms);
    forall j | 0 <= j < |e|
      ensures Ordinal(e[j]) == j && IsEndpoint(ms, e[j])
    {
      EndpointAtIs(ms, j);
    }
    SortItemsLex(e);
    forall m: nat | m < |ms|
      ensures StartItem(ms, m) in e && EndItem(ms, m) in e
    {
      EndpointAtLast(ms, m);
      assert e[2 * m] == StartItem(ms, m) && e[2 * m + 1] == EndItem(ms, m);
    }
  }

  lemma {:induction false} Positions(ms: seq<Mapping>, s: seq<Item>, m: nat) returns (p: nat, q: nat)
    requires IsSweep(ms, s) && m < |ms| && ms[m].start <= ms[m].end
    ensures Spans(ms, s, m, p, q)
  {
    assert StartItem(ms, m) in s && EndItem(ms, m) in s;
    p :| 0 <= p < |s| && s[p] == StartItem(ms, m);
    q :| 0 <= q < |s| && s[q] == EndItem(ms, m);
  }

  lemma {:induction false} ActiveStep(s: seq<Item>, k: nat, m: nat)
    requires k < |s|
    ensures m in Active(s[..k + 1]) <==> if s[k].index == m then s[k].valid else m in Active(s[..k])
  {
    assert s[..k + 1][..k] == s[..k];
  }

  /** The two places of a mapping in the sorted list are the only ones. */
  lemma {:induction false} OnlyTwoPlaces(ms: seq<Mapping>, s: seq<Item>, m: nat, p: nat, q: nat, k: nat)
    requires IsSweep(ms, s) && Spans(ms, s, m, p, q) && k < |s| && s[k].index == m
    ensures k == if s[k].valid then p else q
  {
    assert IsEndpoint(ms, s[k]);
  }

  /** A mapping is active exactly from its start up to its end in the sorted list. */
  lemma {:induction false} ActiveBetween(ms: seq<Mapping>, s: seq<Item>, m: nat, p: nat, q: nat, k: nat)
    requires IsSweep(ms, s) && Spans(ms, s, m, p, q) && k <= |s|
    ensures m in Active(s[..k]) <==> p < k <= q
  {
    if k != 0 {
      ActiveBetween(ms, s, m, p, q, k - 1);
      ActiveStep(s, k - 1, m);
      if s[k - 1].index == m {
        OnlyTwoPlaces(ms, s, m, p, q, k - 1);
      }
    }
  }

  lemma {:induction false} ListedIffActive(ms: seq<Mapping>, s: seq<Item>, lookup: seq<Item>, m: nat, p: nat, q: nat,
                                           a: u64)
    requires IsSweep(ms, s) && IsIndex(lookup, s) && Spans(ms, s, m, p, q)
    ensures Listed(lookup, a, m) <==> exists k: nat :: p <= k < q && s[k].address == a
  {
    if Listed(lookup, a, m) {
      var j :| 0 <= j < |lookup| && lookup[j].address == a && lookup[j].index == m;
      assert Recorded(s, |s|, lookup[j].address, lookup[j].index);
      var k: nat :| k < |s| && Snapshot(s, k, a, m);
      ActiveBetween(ms, s, m, p, q, k + 1);
    }
    if k: nat :| p <= k < q && s[k].address == a {
      ActiveBetween(ms, s, m, p, q, k + 1);
      assert Listed(lookup, s[k].address, m);
    }
  }

  lemma {:induction false} Nearest(lookup: seq<Item>, a: u64) returns (near: u64, i: nat)
    requires SortedByAddress(lookup) && exists j :: 0 <= j < |lookup| && lookup[j].address <= a
    ensures AtNearest(lookup, a, near) && Listed(lookup, near, i)
  {
    var j :| 0 <= j < |lookup| && lookup[j].address <= a;
    while j + 1 < |lookup| && lookup[j + 1].address <= a
      invariant 0 <= j < |lookup| && lookup[j].address <= a
    {
      j := j + 1;
    }
    near, i := lookup[j].address, lookup[j].index;
  }

  lemma {:induction false} CandidateAt(lookup: seq<Item>, a: u64, near: u64, m: nat)
    requires AtNearest(lookup, a, near) && exists i :: Listed(lookup, near, i)
    ensures Candidate(lookup, a, m) <==> Listed(lookup, near, m)
  {
  }

  /** An open mapping that ends at `a` is seen there exactly when some other endpoint at `a` comes first. */
  lemma {:induction false} SeenAtItsEnd(ms: seq<Mapping>, s: seq<Item>, m: nat, p: nat, q: nat, a: u64)
    requires IsSweep(ms, s) && WellFormed(ms) && Spans(ms, s, m, p, q) && ms[m].start < ms[m].end == a
    ensures (exists k: nat :: p <= k < q && s[k].address == a) <==> exists o: nat :: TouchesAt(ms, a, o) && o < m
  {
    if k: nat :| p <= k < q && s[k].address == a {
      assert s[k] in s && Before(s[k], s[q]);
      assert TouchesAt(ms, a, s[k].index);
    }
    if o: nat :| TouchesAt(ms, a, o) && o < m {
      var po, qo := Positions(ms, s, o);
      var k := if ms[o].start == a then po else qo;
      assert !(q <= k);
      assert !(k < p);
    }
  }

  /** If another mapping contains the address where `m` ends first, something is recorded at that address. */
  lemma {:induction false} OtherIsListed(ms: seq<Mapping>, s: seq<Item>, lookup: seq<Item>, m: nat, a: u64)
    requires IsSweep(ms, s) && WellFormed(ms) && IsIndex(lookup, s) && Missed(ms, a, m)
    ensures exists i :: Listed(lookup, a, i)
  {
    var o: nat :| o < |ms| && o != m && ms[o].ContainsIp(a);
    var p, q := Positions(ms, s, m);
    var po, qo := Positions(ms, s, o);
    ListedIffActive(ms, s, lookup, o, po, qo, a);
    if ms[o].start == a {
      assert po <= po < qo;
    } else {
      assert po < q;
      assert ms[o].end == a ==> TouchesAt(ms, a, o);
      assert q < qo;
    }
  }

  /** The nearest recorded address for `a`, and an item at which it was recorded. */
  lemma {:induction false} NearestFacts(ms: seq<Mapping>, s: seq<Item>, lookup: seq<Item>, a: u64, m: nat, p: nat,
                                        q: nat)
    returns (near: u64, k: nat, i: nat)
    requires IsSweep(ms, s) && IsIndex(lookup, s) && Spans(ms, s, m, p, q) && ms[m].ContainsIp(a)
    ensures AtNearest(lookup, a, near) && Snapshot(s, k, near, i) && ms[m].start <= near
    ensures Candidate(lookup, a, m) <==> exists l: nat :: p <= l < q && s[l].address == near
  {
    ListedIffActive(ms, s, lookup, m, p, q, ms[m].start);
    assert p <= p < q && s[p].address == ms[m].start;
    near, i := Nearest(lookup, a);
    CandidateAt(lookup, a, near, m);
    ListedIffActive(ms, s, lookup, m, p, q, near);
    var j :| 0 <= j < |lookup| && lookup[j].address == near && lookup[j].index == i;
    assert Recorded(s, |s|, lookup[j].address, lookup[j].index);
    k :| k < |s| && Snapshot(s, k, near, i);
  }

  lemma {:induction false} NotMissedUnlessListed(ms: seq<Mapping>, s: seq<Item>, lookup: seq<Item>, a: u64, m: nat,
                                                 near: u64)
    requires IsSweep(ms, s) && WellFormed(ms) && IsIndex(lookup, s) && AtNearest(lookup, a, near) && near < a
    ensures !Missed(ms, a, m)
  {
    if Missed(ms, a, m) {
      OtherIsListed(ms, s, lookup, m, a);
      assert false;
    }
  }

  /** The index offers every mapping that contains the address, except the missed one. */
  lemma {:induction false} CandidateIffNotMissed(ms: seq<Mapping>, s: seq<Item>, lookup: seq<Item>, a: u64, m: nat)
    requires IsSweep(ms, s) && WellFormed(ms) && IsIndex(lookup, s) && m < |ms| && ms[m].ContainsIp(a)
    ensures Candidate(lookup, a, m) <==> !Missed(ms, a, m)
  {
    var p, q := Positions(ms, s, m);
    var near, k, i := NearestFacts(ms, s, lookup, a, m, p, q);
    if near < ms[m].end {
      NearIsInside(ms, s, m, p, q, k, near);
      if ms[m].end == a {
        NotMissedUnlessListed(ms, s, lookup, a, m, near);
      }
    } else if ms[m].start < ms[m].end {
      SeenAtItsEnd(ms, s, m, p, q, a);
      if !Candidate(lookup, a, m) {
        SomeoneElseIsOpen(ms, s, m, p, q, k, a, i);
      }
    } else {
      assert p <= p < q && s[p].address == near;
    }
  }

  lemma {:induction false} NearIsInside(ms: seq<Mapping>, s: seq<Item>, m: nat, p: nat, q: nat, k: nat, near: u64)
    requires IsSweep(ms, s) && Spans(ms, s, m, p, q) && k < |s| && s[k].address == near
    requires ms[m].start <= near < ms[m].end
    ensures exists l: nat :: p <= l < q && s[l].address == near
  {
  }

  lemma {:induction false} SomeoneElseIsOpen(ms: seq<Mapping>, s: seq<Item>, m: nat, p: nat, q: nat, k: nat, a: u64,
                                             i: nat)
    requires IsSweep(ms, s) && WellFormed(ms) && Spans(ms, s, m, p, q) && ms[m].start < ms[m].end == a
    requires Snapshot(s, k, a, i)
    requires !exists l: nat :: p <= l < q && s[l].address == a
    ensures exists o: nat :: o < |ms| && o != m && ms[o].ContainsIp(a)
  {
    assert i < |ms| by {
      ActiveAreMappings(ms, s, k + 1, i);
    }
    var pi, qi := Positions(ms, s, i);
    ActiveBetween(ms, s, i, pi, qi, k + 1);
    assert ms[i].ContainsIp(a) by {
      assert pi == k || Before(s[pi], s[k]);
      assert Before(s[k], s[qi]);
    }
  }

  lemma {:induction false} ActiveAreMappings(ms: seq<Mapping>, s: seq<Item>, k: nat, i: nat)
    requires IsSweep(ms, s) && k <= |s| && i in Active(s[..k])
    ensures i < |ms|
  {
    assert s[..k][..k - 1] == s[..k - 1];
    assert s[k - 1] in s;
    if i in Active(s[..k - 1]) {
      ActiveAreMappings(ms, s, k - 1, i);
    }
  }

  // --- where the index and the scan agree ----------------------------------------------------

  /** The two answers find a mapping together, and at the same time. */
  predicate Agree(ms: seq<Mapping>, x: Option<nat>, y: Option<nat>)
    requires x.Some? ==> x.value < |ms|
    requires y.Some? ==> y.value < |ms|
  {
    match (x, y)
    case (None, None) => true
    case (Some(i), Some(j)) => ms[i].time == ms[j].time
    case _ => false
  }

  /** The missed mapping is in time and strictly later than every other one in time. */
  ghost predicate Hidden(ms: seq<Mapping>, a: u64, t: u64) {
    exists m: nat :: Missed(ms, a, m) && ms[m].time <= t && IsLatest(ms, a, t, m)
  }

  ghost predicate IsLatest(ms: seq<Mapping>, a: u64, t: u64, m: nat)
    requires m < |ms|
  {
    forall o: nat :: Eligible(ms, a, t, o) && o != m ==> ms[o].time < ms[m].time
  }

  lemma {:induction false} MissedIsUnique(ms: seq<Mapping>, a: u64, m: nat, o: nat)
    requires Missed(ms, a, m) && Missed(ms, a, o)
    ensures m == o
  {
    assert TouchesAt(ms, a, m) && TouchesAt(ms, a, o);
  }

  /** Exactly when the indexed answer is as good as the scanned one, whichever ties they break. */
  lemma {:induction false} AgreeIffNotHidden(ms: seq<Mapping>, a: u64, t: u64, indexed: Option<nat>,
                                             scanned: Option<nat>)
    requires IsBest(ms, a, t, true, indexed) && IsBest(ms, a, t, false, scanned)
    ensures Agree(ms, indexed, scanned) <==> !Hidden(ms, a, t)
  {
    if Hidden(ms, a, t) {
      var m: nat :| Missed(ms, a, m) && ms[m].time <= t && IsLatest(ms, a, t, m);
      assert Eligible(ms, a, t, m) && Visible(ms, a, false, m);
    }
    if scanned.Some? && Missed(ms, a, scanned.value) && !Hidden(ms, a, t) {
      var m := scanned.value;
      var o: nat :| Eligible(ms, a, t, o) && o != m && ms[o].time >= ms[m].time;
      assert Visible(ms, a, false, o);
      assert Visible(ms, a, true, o) by {
        if Missed(ms, a, o) {
          MissedIsUnique(ms, a, m, o);
        }
      }
    }
  }

  lemma {:induction false} NotHiddenOffTheEnds(ms: seq<Mapping>, a: u64, t: u64)
    requires forall m :: 0 <= m < |ms| ==> ms[m].end != a
    ensures !Hidden(ms, a, t)
  {
  }

  lemma {:induction false} NotHiddenWhenDisjoint(ms: seq<Mapping>, a: u64, t: u64)
    requires forall m, o :: 0 <= m < o < |ms| ==> ms[m].end < ms[o].start || ms[o].end < ms[m].start
    ensures !Hidden(ms, a, t)
  {
  }

  /** Two overlapping mappings: at the last byte of the later one the scan finds it, and the index the other. */
  lemma {:induction false} HiddenAtAnEnd()
    ensures var ms := [Mapping(5, 10, 20), Mapping(0, 0, 30)];
      && WellFormed(ms) && Hidden(ms, 20, NO_TIME)
      && IsBest(ms, 20, NO_TIME, true, Some(1)) && IsBest(ms, 20, NO_TIME, false, Some(0))
      && !Agree(ms, Some(1), Some(0))
  {
    var ms := [Mapping(5, 10, 20), Mapping(0, 0, 30)];
    assert !Missed(ms, 20, 1);
    assert ms[1].ContainsIp(20);
    assert Missed(ms, 20, 0);
    assert IsLatest(ms, 20, NO_TIME, 0);
  }

  /** The mapping list of a process with its cached index. */
  class ExportMappingLookup {
    const lookup: AddressLookup
    var mappings: seq<Mapping>
    var minLookup: nat

    constructor ()
      ensures Valid() && fresh(lookup) && lookup.lookup == [] && mappings == [] && minLookup == 16
    {
      lookup := new AddressLookup();
      mappings := [];
      minLookup := 16;
    }

    /** The cache is either cleared or the index of the current mappings. */
    ghost predicate Valid()
      reads this, lookup
    {
      lookup.lookup == [] || IsIndex(lookup.lookup, Sweep(mappings))
    }

    method SetLookupMinSize(n: nat)
      requires Valid()
      modifies this`minLookup
      ensures Valid() && minLookup == n
    {
      minLookup := n;
    }

    /** mappings_mut: the cache is cleared before the caller may edit the list in any way. */
    method MappingsMut(edited: seq<Mapping>)
      requires Valid()
      modifies this`mappings, lookup`lookup
      ensures Valid() && mappings == edited
    {
      lookup.Clear();
      mappings := edited;
    }

    method Clone() returns (copy: ExportMappingLookup)
      requires Valid()
      ensures fresh(copy) && fresh(copy.lookup) && copy.Valid()
      ensures copy.mappings == mappings && copy.minLookup == minLookup
    {
      copy := new ExportMappingLookup();
      copy.mappings, copy.minLookup := mappings, minLookup;
    }

    method BuildLookup()
      modifies lookup`lookup
      ensures IsIndex(lookup.lookup, Sweep(mappings))
      ensures mappings != [] ==> lookup.lookup != []
    {
      var items: seq<Item> := [];
      var i := 0;
      while i < |mappings|
        invariant i <= |mappings| && items == Endpoints(mappings[..i])
      {
        assert mappings[..i + 1][..i] == mappings[..i];
        items := items + [Item(mappings[i].start, i, true), Item(mappings[i].end, i, false)];
        i := i + 1;
      }
      assert mappings[..i] == mappings;
      lookup.Update(items);
      if mappings != [] {
        IndexNotEmpty(mappings, lookup.lookup);
      }
    }

    /** The indexed branch of find_index; an empty mapping list makes the index lookup go out of bounds. */
    method FindIndexed(address: u64, time: u64) returns (r: Result<Option<nat>>)
      requires Valid()
      modifies lookup
      ensures Valid()
      ensures r.Err? <==> mappings == []
      ensures r.Err? ==> r.fault == OutOfBounds
      ensures r.Ok? && r.value.Some? ==> Eligible(mappings, address, time, r.value.value)
      ensures r.Ok? && WellFormed(mappings) ==> IsBest(mappings, address, time, true, r.value)
    {
      if lookup.lookup == [] {
        BuildLookup();
      }
      if lookup.lookup == [] {
        return Err(OutOfBounds);
      }
      IndexShape(mappings, lookup.lookup);
      var found := lookup.Find(address);
      var best: Option<nat> := None;
      var n := 0;
      while n < |found|
        invariant n <= |found|
        invariant best.Some? ==> best.value in found[..n] && Eligible(mappings, address, time, best.value)
        invariant forall k :: 0 <= k < n && Eligible(mappings, address, time, found[k]) ==>
          best.Some? && mappings[found[k]].time <= mappings[best.value].time
      {
        var index := found[n];
        assert index in found;
        var mapping := mappings[index];
        if mapping.ContainsIp(address) && mapping.time <= time {
          if best.None? || mapping.time > mappings[best.value].time {
            best := Some(index);
          }
        }
        n := n + 1;
      }
      assert found[..n] == found;
      if WellFormed(mappings) {
        BestOfCandidates(mappings, lookup.lookup, address, time, found, best);
      }
      return Ok(best);
    }

    /** The linear branch of find_index: the first of the latest. */
    method FindScanned(address: u64, time: u64) returns (r: Option<nat>)
      ensures IsScanned(mappings, address, time, r)
    {
      r := None;
      var index := 0;
      while index < |mappings|
        invariant index <= |mappings|
        invariant r.Some? ==> r.value < index && Eligible(mappings, address, time, r.value)
        invariant forall m: nat :: m < index && Eligible(mappings, address, time, m) ==>
          r.Some? && mappings[m].time <= mappings[r.value].time
        invariant r.Some? ==> forall m: nat :: m < r.value && Eligible(mappings, address, time, m) ==>
          mappings[m].time < mappings[r.value].time
      {
        var mapping := mappings[index];
        if mapping.ContainsIp(address) && mapping.time <= time {
          if r.None? || mapping.time > mappings[r.value].time {
            r := Some(index);
          }
        }
        index := index + 1;
      }
    }

    /** find_index: which branch answers depends on the threshold only. */
    method FindIndex(address: u64, time: Option<u64>) returns (r: Result<Option<nat>>)
      requires Valid()
      modifies lookup
      ensures Valid()
      ensures r.Err? <==> mappings == [] && minLookup == 0
      ensures r.Ok? && (WellFormed(mappings) || |mappings| < minLookup) ==>
        IsBest(mappings, address, if time.Some? then time.value else NO_TIME, |mappings| >= minLookup, r.value)
    {
      var limit := if time.Some? then time.value else NO_TIME;
      if |mappings| >= minLookup {
        r := FindIndexed(address, limit);
      } else {
        var best := FindScanned(address, limit);
        return Ok(best);
      }
    }
  }

  lemma {:induction false} IndexNotEmpty(ms: seq<Mapping>, lookup: seq<Item>)
    requires ms != [] && IsIndex(lookup, Sweep(ms))
    ensures lookup != []
  {
    SweepIs(ms);
    var s := Sweep(ms);
    assert StartItem(ms, 0) in s;
    var p: nat :| p < |s| && s[p] == StartItem(ms, 0);
    ActiveStep(s, p, 0);
    ListedAt(lookup, s, p, 0);
  }

  lemma {:induction false} ListedAt(lookup: seq<Item>, s: seq<Item>, p: nat, i: nat)
    requires IsIndex(lookup, s) && p < |s| && i in Active(s[..p + 1])
    ensures Listed(lookup, s[p].address, i)
  {
  }

  lemma {:induction false} IndexShape(ms: seq<Mapping>, lookup: seq<Item>)
    requires IsIndex(lookup, Sweep(ms))
    ensures forall j :: 0 <= j < |lookup| ==> lookup[j].index < |ms|
  {
    SweepIs(ms);
    var s := Sweep(ms);
    forall j | 0 <= j < |lookup|
      ensures lookup[j].index < |ms|
    {
      assert Recorded(s, |s|, lookup[j].address, lookup[j].index);
      var k: nat :| k < |s| && Snapshot(s, k, lookup[j].address, lookup[j].index);
      ActiveAreMappings(ms, s, k + 1, lookup[j].index);
    }
  }

  lemma {:induction false} BestOfCandidates(ms: seq<Mapping>, lookup: seq<Item>, a: u64, t: u64, found: seq<nat>,
                                            best: Option<nat>)
    requires WellFormed(ms) && IsIndex(lookup, Sweep(ms)) && lookup != []
    requires forall i :: Candidate(lookup, a, i) ==> i in found
    requires lookup[0].address <= a ==> forall i :: i in found ==> Candidate(lookup, a, i)
    requires best.Some? ==> best.value in found && Eligible(ms, a, t, best.value)
    requires forall k :: 0 <= k < |found| && Eligible(ms, a, t, found[k]) ==>
      best.Some? && ms[found[k]].time <= ms[best.value].time
    ensures IsBest(ms, a, t, true, best)
  {
    var s := Sweep(ms);
    SweepIs(ms);
    forall m: nat | Eligible(ms, a, t, m)
      ensures lookup[0].address <= a && (Candidate(lookup, a, m) <==> Visible(ms, a, true, m))
    {
      CandidateIffNotMissed(ms, s, lookup, a, m);
      StartIsListed(ms, lookup, a, m);
    }
    forall m: nat | Eligible(ms, a, t, m) && Visible(ms, a, true, m)
      ensures best.Some? && ms[m].time <= ms[best.value].time
    {
      assert m in found;
    }
  }

  lemma {:induction false} StartIsListed(ms: seq<Mapping>, lookup: seq<Item>, a: u64, m: nat)
    requires WellFormed(ms) && IsIndex(lookup, Sweep(ms)) && m < |ms| && ms[m].ContainsIp(a)
    ensures lookup != [] && lookup[0].address <= a
  {
    SweepIs(ms);
    var p, q := Positions(ms, Sweep(ms), m);
    ListedIffActive(ms, Sweep(ms), lookup, m, p, q, ms[m].start);
    assert p <= p < q;
    var j :| 0 <= j < |lookup| && lookup[j].address == ms[m].start && lookup[j].index == m;
  }
}
