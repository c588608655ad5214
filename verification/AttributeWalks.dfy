/** The walk over attributes and the attributes associated with them, which may form cycles. */
module AttributeWalks {
  import opened Outcome
  import opened MachineInt

  datatype AttributeValue = Label(labelId: nat) | Value(value: u64) | Record(recordId: nat)

  datatype AttributePair = AttributePair(name: nat, value: AttributeValue)

  datatype Attributes = Attributes(pairs: seq<AttributePair>, associatedIds: seq<nat>)

  // --- reachability -----------------------------------------------------------------------------------

  /** Each id but the last is in the table and is associated with the next. */
  predicate Steps(table: seq<Attributes>, path: seq<nat>) {
    forall k :: 0 <= k < |path| - 1 ==> path[k] < |table| && path[k + 1] in table[path[k]].associatedIds
  }

  ghost predicate Reachable(table: seq<Attributes>, start: nat, id: nat) {
    exists path :: Leads(table, start, id, path)
  }

  predicate Leads(table: seq<Attributes>, start: nat, id: nat, path: seq<nat>) {
    path != [] && path[0] == start && path[|path| - 1] == id && Steps(table, path)
  }

  lemma {:induction false} StartIsReachable(table: seq<Attributes>, start: nat)
    ensures Reachable(table, start, start)
  {
    assert Leads(table, start, start, [start]);
  }

  lemma {:induction false} AssociatedIsReachable(table: seq<Attributes>, start: nat, id: nat, next: nat)
    requires Reachable(table, start, id) && id < |table| && next in table[id].associatedIds
    ensures Reachable(table, start, next)
  {
    var path :| Leads(table, start, id, path);
    assert Leads(table, start, next, path + [next]);
  }

  /** The associations of every table entry in a set are in the set. */
  ghost predicate Closed(table: seq<Attributes>, ids: set<nat>) {
    forall id, next :: id in ids && id < |table| && next in table[id].associatedIds ==> next in ids
  }

  /** A closed set with the start in it has everything reachable. */
  lemma {:induction false} ClosedHasReachable(table: seq<Attributes>, start: nat, ids: set<nat>, path: seq<nat>,
                                              id: nat)
    requires start in ids && Closed(table, ids) && Leads(table, start, id, path)
    ensures id in ids
    decreases path
  {
    if |path| > 1 {
      var before := path[..|path| - 1];
      ClosedHasReachable(table, start, ids, before, before[|before| - 1]);
      assert path[|path| - 2] < |table| && path[|path| - 2 + 1] in table[path[|path| - 2]].associatedIds;
    }
  }

  lemma {:induction false} ClosedIsAll(table: seq<Attributes>, start: nat, ids: set<nat>)
    requires start in ids && Closed(table, ids)
    ensures forall id :: Reachable(table, start, id) ==> id in ids
  {
    forall id | Reachable(table, start, id)
      ensures id in ids
    {
      var path :| Leads(table, start, id, path);
      ClosedHasReachable(table, start, ids, path, id);
    }
  }

  /** Every id a table names. */
  function Mentioned(table: seq<Attributes>): (ids: set<nat>)
    ensures forall i, id :: 0 <= i < |table| && id in table[i].associatedIds ==> id in ids
  {
    if table == [] then {}
    else (set id | id in table[0].associatedIds) + Mentioned(table[1..])
  }

  // --- collecting pairs --------------------------------------------------------------------------------

  type Filter = Option<AttributePair -> bool>

  predicate Passes(filter: Filter, pair: AttributePair) {
    filter.None? || filter.value(pair)
  }

  /** The pairs a filter lets through, in order. */
  function Filtered(filter: Filter, pairs: seq<AttributePair>): seq<AttributePair> {
    if pairs == [] then []
    else
      var last := pairs[|pairs| - 1];
      Filtered(filter, pairs[..|pairs| - 1]) + (if Passes(filter, last) then [last] else [])
  }

  lemma {:induction false} NoFilter(pairs: seq<AttributePair>)
    ensures Filtered(None, pairs) == pairs
  {
    if pairs != [] {
      var before, last := pairs[..|pairs| - 1], pairs[|pairs| - 1];
      NoFilter(before);
      assert before + [last] == pairs;
    }
  }

  /** The filtered pairs of some table entries, one entry after another; ids past the table have none. */
  function Collected(table: seq<Attributes>, filter: Filter, order: seq<nat>): seq<AttributePair> {
    if order == [] then []
    else
      var last := order[|order| - 1];
      Collected(table, filter, order[..|order| - 1])
      + (if last < |table| then Filtered(filter, table[last].pairs) else [])
  }

  ghost predicate Distinct(order: seq<nat>) {
    forall j, k :: 0 <= j < k < |order| ==> order[j] != order[k]
  }

  /** The ids seen are those visited and those still to visit, each once. */
  ghost predicate Split(order: seq<nat>, ids: seq<nat>, seen: set<nat>) {
    && Distinct(order) && Distinct(ids)
    && (forall id :: id in order ==> id !in ids)
    && (forall id :: id in seen <==> id in order || id in ids)
  }

  /** Every association of a visited entry was seen. */
  ghost predicate Followed(table: seq<Attributes>, order: seq<nat>, seen: set<nat>) {
    forall id, next :: id in order && id < |table| && next in table[id].associatedIds ==> next in seen
  }

  lemma {:induction false} SplitPop(order: seq<nat>, ids: seq<nat>, seen: set<nat>, id: nat)
    requires Split(order, ids + [id], seen)
    ensures Split(order + [id], ids, seen) && id in seen
  {
    var before := ids + [id];
    assert before[|ids|] == id;
    assert forall k :: 0 <= k < |ids| ==> ids[k] == before[k];
    assert forall x :: x in before <==> x in ids || x == id;
    assert forall k :: 0 <= k < |order| ==> order[k] in order;
  }

  lemma {:induction false} SplitPush(order: seq<nat>, ids: seq<nat>, seen: set<nat>, id: nat)
    requires Split(order, ids, seen) && id !in seen
    ensures Split(order, ids + [id], seen + {id})
  {
  }

  /** An order in which each reachable id stands once and no other id does. */
  ghost predicate VisitsOnce(table: seq<Attributes>, start: nat, order: seq<nat>) {
    Distinct(order) && forall id :: id in order <==> Reachable(table, start, id)
  }

  /** Collecting keeps exactly the pairs that pass and that some reachable entry has. */
  lemma {:induction false} CollectedIff(table: seq<Attributes>, filter: Filter, order: seq<nat>, pair: AttributePair)
    ensures pair in Collected(table, filter, order)
       <==> Passes(filter, pair) && exists id :: id in order && id < |table| && pair in table[id].pairs
  {
    if order != [] {
      var before, last := order[..|order| - 1], order[|order| - 1];
      CollectedIff(table, filter, before, pair);
      assert forall id :: id in order <==> id in before || id == last;
      if last < |table| {
        FilteredIff(filter, table[last].pairs, pair);
      }
    }
  }

  lemma {:induction false} FilteredIff(filter: Filter, pairs: seq<AttributePair>, pair: AttributePair)
    ensures pair in Filtered(filter, pairs) <==> Passes(filter, pair) && pair in pairs
  {
    if pairs != [] {
      var before, last := pairs[..|pairs| - 1], pairs[|pairs| - 1];
      FilteredIff(filter, before, pair);
      assert pair in pairs <==> pair in before || pair == last;
    }
  }

  // --- the walker ----------------------------------------------------------------------------------------

  class ExportAttributeWalker {
    var ids: seq<nat>
    var seen: set<nat>
    var attributes: seq<AttributePair>
    var filter: Filter

    constructor ()
      ensures ids == [] && seen == {} && attributes == [] && filter == None
    {
      ids, seen, attributes, filter := [], {}, [], None;
    }

    /** Forgets everything but the filter. */
    method Start()
      modifies `ids, `seen, `attributes
      ensures ids == [] && seen == {} && attributes == []
    {
      ids, seen, attributes := [], {}, [];
    }

    method WithFilter(accept: AttributePair -> bool)
      modifies `filter
      ensures filter == Some(accept)
    {
      filter := Some(accept);
    }

    /** Takes the id pushed last. */
    method PopId() returns (id: Option<nat>)
      modifies `ids
      ensures old(ids) == [] ==> id == None && ids == []
      ensures old(ids) != [] ==> id.Some? && ids + [id.value] == old(ids)
    {
      if ids == [] {
        return None;
      }
      id := Some(ids[|ids| - 1]);
      ids := ids[..|ids| - 1];
    }

    /** Pushes an id unless it was pushed since the start. */
    method PushId(id: nat)
      modifies `ids, `seen
      ensures seen == old(seen) + {id}
      ensures ids == if id in old(seen) then old(ids) else old(ids) + [id]
    {
      if id !in seen {
        seen := seen + {id};
        ids := ids + [id];
      }
    }

    method PushAttributes(pairs: seq<AttributePair>)
      modifies `attributes
      ensures attributes == old(attributes) + Filtered(filter, pairs)
    {
      match filter
      case Some(accept) =>
        for k := 0 to |pairs|
          invariant attributes == old(attributes) + Filtered(filter, pairs[..k])
        {
          assert pairs[..k + 1][..k] == pairs[..k];
          if accept(pairs[k]) {
            attributes := attributes + [pairs[k]];
          }
        }
        assert pairs[..|pairs|] == pairs;
      case None =>
        NoFilter(pairs);
        attributes := attributes + pairs;
    }

    /** Pushes ids one after another. */
    method PushAll(associated: seq<nat>, ghost order: seq<nat>)
      requires Split(order, ids, seen)
      modifies `ids, `seen
      ensures Split(order, ids, seen)
      ensures forall id :: id in seen <==> id in old(seen) || id in associated
      ensures seen == old(seen) ==> ids == old(ids)
    {
      for k := 0 to |associated|
        invariant Split(order, ids, seen)
        invariant forall id :: id in seen <==> id in old(seen) || id in associated[..k]
        invariant seen == old(seen) ==> ids == old(ids)
      {
        if associated[k] !in seen {
          SplitPush(order, ids, seen, associated[k]);
        }
        PushId(associated[k]);
      }
      assert associated[..|associated|] == associated;
    }

    /** Collects a table entry's pairs and pushes what is associated with it. */
    method Visit(table: seq<Attributes>, id: nat, ghost order: seq<nat>)
      requires id < |table| && Split(order + [id], ids, seen) && Followed(table, order, seen)
      modifies `ids, `seen, `attributes
      ensures Split(order + [id], ids, seen) && Followed(table, order + [id], seen)
      ensures forall next :: next in seen <==> next in old(seen) || next in table[id].associatedIds
      ensures seen == old(seen) ==> ids == old(ids)
      ensures attributes == old(attributes) + Filtered(filter, table[id].pairs)
    {
      PushAttributes(table[id].pairs);
      PushAll(table[id].associatedIds, order + [id]);
    }
  }

  /**
   Visits every reachable id once and collects its pairs, unless the id just past the table is reachable:
   the bounds test lets that one through.
   */
  method WalkAttributes(table: seq<Attributes>, start: nat, walker: ExportAttributeWalker)
    returns (r: Result<()>, ghost order: seq<nat>)
    modifies walker
    ensures walker.filter == old(walker.filter)
    ensures r == Err(OutOfBounds) <==> Reachable(table, start, |table|)
    ensures r.Ok? ==> VisitsOnce(table, start, order)
    ensures r.Ok? ==> walker.attributes == Collected(table, walker.filter, order)
  {
    walker.Start();
    walker.PushId(start);
    order := [];
    StartIsReachable(table, start);
    ghost var universe := Mentioned(table) + {start};
    var done, past := false, false;
    while !done
      invariant walker.filter == old(walker.filter) && walker.seen <= universe && !past
      invariant Walking(table, start, order, walker.ids, walker.seen) && (done ==> walker.ids == [])
      invariant walker.attributes == Collected(table, walker.filter, order)
      decreases !done, universe - walker.seen, |walker.ids|
    {
      done, past, order := VisitNext(table, start, walker, order);
      if past {
        return Err(OutOfBounds), order;
      }
    }
    WalkEnds(table, start, order, walker.seen);
    return Ok(()), order;
  }

  /** Where a walk stands: what was visited, what is to be visited, and that all of it is reachable. */
  ghost predicate Walking(table: seq<Attributes>, start: nat, order: seq<nat>, ids: seq<nat>, seen: set<nat>) {
    && Split(order, ids, seen) && Followed(table, order, seen) && start in seen && |table| !in order
    && forall id :: id in seen ==> Reachable(table, start, id)
  }

  /** Takes the next id and visits it; stops at the id just past the table. */
  method VisitNext(table: seq<Attributes>, ghost start: nat, walker: ExportAttributeWalker, ghost before: seq<nat>)
    returns (done: bool, past: bool, ghost order: seq<nat>)
    requires Walking(table, start, before, walker.ids, walker.seen)
    modifies walker
    ensures walker.filter == old(walker.filter)
    ensures past ==> Reachable(table, start, |table|)
    ensures done ==> !past && order == before && walker.ids == old(walker.ids) == []
    ensures done ==> walker.seen == old(walker.seen) && walker.attributes == old(walker.attributes)
    ensures !past ==> Walking(table, start, order, walker.ids, walker.seen)
    ensures !past && old(walker.attributes) == Collected(table, walker.filter, before) ==>
              walker.attributes == Collected(table, walker.filter, order)
    ensures old(walker.seen) <= walker.seen <= old(walker.seen) + Mentioned(table)
    ensures !done && !past && walker.seen == old(walker.seen) ==> |walker.ids| < |old(walker.ids)|
  {
    order := before;
    var popped := walker.PopId();
    if popped.None? {
      return true, false, order;
    }
    var id := popped.value;
    SplitPop(before, walker.ids, walker.seen, id);
    if id == |table| {
      return false, true, order;
    }
    VisitId(table, start, id, walker, before);
    CollectedNext(table, walker.filter, before, id);
    order := before + [id];
    return false, false, order;
  }

  /** Visits an id that was just taken; one further past the table has nothing. */
  method VisitId(table: seq<Attributes>, ghost start: nat, id: nat, walker: ExportAttributeWalker,
                 ghost order: seq<nat>)
    requires id != |table| && id in walker.seen
    requires Split(order + [id], walker.ids, walker.seen) && Followed(table, order, walker.seen)
    requires forall x :: x in walker.seen ==> Reachable(table, start, x)
    modifies walker
    ensures walker.filter == old(walker.filter)
    ensures Split(order + [id], walker.ids, walker.seen) && Followed(table, order + [id], walker.seen)
    ensures old(walker.seen) <= walker.seen <= old(walker.seen) + Mentioned(table)
    ensures forall x :: x in walker.seen ==> Reachable(table, start, x)
    ensures walker.attributes == old(walker.attributes) + PairsOf(table, walker.filter, id)
    ensures walker.seen == old(walker.seen) ==> walker.ids == old(walker.ids)
  {
    if id < |table| {
      ReachesNext(table, start, id);
      walker.Visit(table, id, order);
    }
  }

  function PairsOf(table: seq<Attributes>, filter: Filter, id: nat): seq<AttributePair> {
    if id < |table| then Filtered(filter, table[id].pairs) else []
  }

  lemma {:induction false} CollectedNext(table: seq<Attributes>, filter: Filter, order: seq<nat>, id: nat)
    ensures Collected(table, filter, order + [id]) == Collected(table, filter, order) + PairsOf(table, filter, id)
  {
    assert (order + [id])[..|order|] == order;
  }

  /** When no id is left to visit, what was visited is what is reachable. */
  lemma {:induction false} WalkEnds(table: seq<Attributes>, start: nat, order: seq<nat>, seen: set<nat>)
    requires Split(order, [], seen) && Followed(table, order, seen) && start in seen
    requires forall id :: id in seen ==> Reachable(table, start, id)
    ensures VisitsOnce(table, start, order)
  {
    ClosedIsAll(table, start, seen);
  }

  /** An entry that is associated with the id just past its table: the walk from it goes out of bounds. */
  lemma {:induction false} PastTheTable()
    ensures var table := [Attributes([], [1])]; Reachable(table, 0, |table|)
  {
    var table := [Attributes([], [1])];
    StartIsReachable(table, 0);
    AssociatedIsReachable(table, 0, 0, 1);
  }

  lemma {:induction false} ReachesNext(table: seq<Attributes>, start: nat, id: nat)
    requires Reachable(table, start, id) && id < |table|
    ensures forall next :: next in table[id].associatedIds ==> Reachable(table, start, next)
  {
    forall next | next in table[id].associatedIds
      ensures Reachable(table, start, next)
    {
      AssociatedIsReachable(table, start, id, next);
    }
  }

  // --- the control group of a sample ------------------------------------------------------------------

  /** The first number stored under a name. */
  function NumberOf(pairs: seq<AttributePair>, name: nat): Option<u64> {
    if pairs == [] then None
    else if pairs[0].name == name && pairs[0].value.Value? then Some(pairs[0].value.value)
    else NumberOf(pairs[1..], name)
  }

  /** A pair that holds a number under a name. */
  predicate HoldsNumber(pair: AttributePair, name: nat) { pair.name == name && pair.value.Value? }

  /** The first pair that holds a number under a name is at k. */
  predicate FirstNumber(pairs: seq<AttributePair>, name: nat, k: nat) {
    k < |pairs| && HoldsNumber(pairs[k], name) && forall j :: 0 <= j < k ==> !HoldsNumber(pairs[j], name)
  }

  /** It is the number of the first pair with the name and a number, and there is none if there is no such pair. */
  lemma {:induction false} NumberIsFirst(pairs: seq<AttributePair>, name: nat)
    ensures match NumberOf(pairs, name)
      case None => forall k :: 0 <= k < |pairs| ==> !HoldsNumber(pairs[k], name)
      case Some(number) => exists k: nat :: FirstNumber(pairs, name, k) && pairs[k].value.value == number
  {
    if pairs != [] {
      if HoldsNumber(pairs[0], name) {
        assert FirstNumber(pairs, name, 0);
      } else {
        var rest := pairs[1..];
        assert forall k :: 1 <= k < |pairs| ==> pairs[k] == rest[k - 1];
        NumberIsFirst(rest, name);
        if NumberOf(rest, name).Some? {
          var k: nat :| FirstNumber(rest, name, k) && rest[k].value.value == NumberOf(rest, name).value;
          assert FirstNumber(pairs, name, k + 1);
        }
      }
    }
  }

  /** A reachable entry holds a number under the name. */
  ghost predicate HasNumber(table: seq<Attributes>, start: nat, name: nat, id: nat) {
    Reachable(table, start, id) && id < |table|
    && exists k :: 0 <= k < |table[id].pairs| && HoldsNumber(table[id].pairs[k], name)
  }

  /** The control group that a reachable entry gives: its first number under the name. */
  ghost predicate GivesNumber(table: seq<Attributes>, start: nat, name: nat, id: nat, number: u64) {
    Reachable(table, start, id) && id < |table|
    && exists k: nat :: FirstNumber(table[id].pairs, name, k) && table[id].pairs[k].value.value == number
  }

  lemma {:induction false} EntryGives(table: seq<Attributes>, start: nat, name: nat, id: nat, number: Option<u64>)
    requires Reachable(table, start, id) && id < |table| && number == NumberOf(table[id].pairs, name)
    ensures HasNumber(table, start, name, id) <==> number.Some?
    ensures number.Some? ==> GivesNumber(table, start, name, id, number.value)
  {
    NumberIsFirst(table[id].pairs, name);
  }

  /**
   Finds the control group of a reachable table entry if there is one, and is zero otherwise.  Ids past
   the table are skipped, and so is everything when the sample has no attributes or the name is unknown.
   */
  method CgroupId(table: seq<Attributes>, start: nat, cgroupName: Option<nat>) returns (r: u64)
    ensures start == 0 || cgroupName.None? ==> r == 0
    ensures start != 0 && cgroupName.Some? ==>
              if exists id :: HasNumber(table, start, cgroupName.value, id)
              then exists id :: GivesNumber(table, start, cgroupName.value, id, r)
              else r == 0
  {
    if start == 0 || cgroupName.None? {
      return 0;
    }
    var name := cgroupName.value;
    var seen: set<nat> := {};
    var stack := [start];
    StartIsReachable(table, start);
    ghost var universe := Mentioned(table) + {start};
    while stack != []
      invariant start in seen || start in stack
      invariant seen <= universe && forall id :: id in stack ==> id in universe
      invariant forall id :: id in seen || id in stack ==> Reachable(table, start, id)
      invariant forall id, next :: id in seen && id < |table| && next in table[id].associatedIds ==>
                                     next in seen || next in stack
      invariant forall id :: id in seen && id < |table| ==> !HasNumber(table, start, name, id)
      decreases universe - seen, |stack|
    {
      var id := stack[|stack| - 1];
      ghost var before := stack;
      stack := stack[..|stack| - 1];
      assert forall x :: x in before <==> x in stack || x == id;
      if id in seen {
        continue;
      }
      seen := seen + {id};
      if id >= |table| {
        continue;
      }
      var number := FindNumber(table[id].pairs, name);
      EntryGives(table, start, name, id, number);
      if number.Some? {
        return number.value;
      }
      ReachesNext(table, start, id);
      stack := PushEach(stack, table[id].associatedIds);
    }
    ClosedIsAll(table, start, seen);
    return 0;
  }

  method FindNumber(pairs: seq<AttributePair>, name: nat) returns (r: Option<u64>)
    ensures r == NumberOf(pairs, name)
  {
    for k := 0 to |pairs|
      invariant NumberOf(pairs, name) == NumberOf(pairs[k..], name)
    {
      if pairs[k].name == name && pairs[k].value.Value? {
        return Some(pairs[k].value.value);
      }
    }
    return None;
  }

  method PushEach(stack: seq<nat>, ids: seq<nat>) returns (r: seq<nat>)
    ensures forall id :: id in r <==> id in stack || id in ids
  {
    r := stack;
    for k := 0 to |ids|
      invariant forall id :: id in r <==> id in stack || id in ids[..k]
    {
      r := r + [ids[k]];
    }
    assert ids[..|ids|] == ids;
  }
}
