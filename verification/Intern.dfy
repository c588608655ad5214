/** Interned slices: which id every slice of a history gets, and the hashed store that hands them out. */
module Intern {
  import opened Outcome
  import opened MachineInt

  // --- what a history of calls means ---------------------------------------------------------------

  /** The distinct slices of a history, in the order they were first seen. */
  function Distinct<T(==)>(history: seq<seq<T>>): seq<seq<T>> {
    if history == [] then []
    else
      var (before, last) := (Distinct(history[..|history| - 1]), history[|history| - 1]);
      if last in before then before else before + [last]
  }

  /** Where a slice stands among distinct ones. */
  function IndexOf<T(==)>(slices: seq<seq<T>>, slice: seq<T>): (i: nat)
    requires slice in slices
    ensures i < |slices| && slices[i] == slice
  {
    if slices[0] == slice then 0 else IndexOf(slices[1..], slice) + 1
  }

  ghost predicate AllDistinct<T>(slices: seq<seq<T>>) {
    forall i, j :: 0 <= i < j < |slices| ==> slices[i] != slices[j]
  }

  /** The id call `k` of a history returned. */
  ghost function IdAt<T>(history: seq<seq<T>>, k: nat): nat
    requires k < |history|
  {
    DistinctHolds(history[..k + 1]);
    assert history[..k + 1][k] == history[k];
    IndexOf(Distinct(history[..k + 1]), history[k])
  }

  lemma {:induction false} DistinctHolds<T>(history: seq<seq<T>>)
    ensures AllDistinct(Distinct(history))
    ensures forall slice :: slice in Distinct(history) <==> slice in history
  {
    if history != [] {
      var before, last := history[..|history| - 1], history[|history| - 1];
      DistinctHolds(before);
      assert forall slice :: slice in history <==> slice in before || slice == last;
    }
  }

  /** What one more call returns: where the slice stands, or the number of slices if it is new. */
  lemma {:induction false} IdOfNext<T>(history: seq<seq<T>>, slice: seq<T>)
    ensures var before := Distinct(history);
      && Distinct(history + [slice]) == (if slice in before then before else before + [slice])
      && IdAt(history + [slice], |history|) == if slice in before then IndexOf(before, slice) else |before|
  {
    var after := history + [slice];
    assert after[..|history|] == history && after[..|history| + 1] == after;
    DistinctHolds(after);
    DistinctHolds(history);
    var i := IndexOf(Distinct(after), slice);
    assert slice !in Distinct(history) ==> Distinct(after)[|Distinct(history)|] == slice;
  }

  /** The same by whether the slice was seen before. */
  lemma {:induction false} IdWhenSeen<T>(history: seq<seq<T>>, slice: seq<T>, after: seq<seq<T>>, n: nat)
    requires after == history + [slice] && n == |after| - 1
    ensures slice in history ==> slice in Distinct(history) && IdAt(after, n) == IndexOf(Distinct(history), slice)
    ensures slice !in history ==> slice !in Distinct(history) && IdAt(after, n) == |Distinct(history)|
  {
    IdOfNext(history, slice);
    DistinctHolds(history);
  }

  /** More calls never move a slice: what is interned stays where it is. */
  lemma {:induction false} DistinctIsStable<T>(history: seq<seq<T>>, more: seq<seq<T>>)
    ensures Distinct(history) <= Distinct(history + more)
  {
    if more == [] {
      assert history + more == history;
    } else {
      DistinctIsStable(history, more[..|more| - 1]);
      assert (history + more)[..|history + more| - 1] == history + more[..|more| - 1];
    }
  }

  /** Every id finds its own slice again, however many calls come after. */
  lemma {:induction false} FromIdUndoesToId<T>(history: seq<seq<T>>, k: nat)
    requires k < |history|
    ensures IdAt(history, k) < |Distinct(history)|
    ensures Distinct(history)[IdAt(history, k)] == history[k]
  {
    DistinctIsStable(history[..k + 1], history[k + 1..]);
    assert history[..k + 1] + history[k + 1..] == history;
  }

  /** Two calls return the same id exactly when they were given equal slices. */
  lemma {:induction false} SameIdIffSameSlice<T>(history: seq<seq<T>>, j: nat, k: nat)
    requires j < |history| && k < |history|
    ensures IdAt(history, j) == IdAt(history, k) <==> history[j] == history[k]
  {
    FromIdUndoesToId(history, j);
    FromIdUndoesToId(history, k);
    DistinctHolds(history);
  }

  /** Ids are dense and in first-seen order: a slice gets the number of distinct slices before it, once. */
  lemma {:induction false} IdsAreDense<T>(history: seq<seq<T>>, id: nat) returns (k: nat)
    requires id < |Distinct(history)|
    ensures k < |history| && history[k] == Distinct(history)[id]
    ensures history[k] !in history[..k] && |Distinct(history[..k])| == id == IdAt(history, k)
  {
    var before, last := history[..|history| - 1], history[|history| - 1];
    if id < |Distinct(before)| {
      k := IdsAreDense(before, id);
      assert before[..k] == history[..k] && before[..k + 1] == history[..k + 1];
    } else {
      k := |history| - 1;
      DistinctHolds(before);
      DistinctHolds(history);
      assert history[..k + 1] == history;
    }
  }

  // --- the store -------------------------------------------------------------------------------------

  /** Bitwise and. */
  function And(a: nat, b: nat): (r: nat)
    ensures r <= b
    decreases a
  {
    if a == 0 then 0 else (if a % 2 == 1 && b % 2 == 1 then 1 else 0) + 2 * And(a / 2, b / 2)
  }

  /** The mask of a power of two keeps the remainder of the division by it. */
  lemma {:induction false} MaskIsRemainder(hash: nat, k: nat) returns (q: nat)
    ensures 1 <= Pow2(k)
    ensures hash == Scale(q, k) + And(hash, Pow2(k) - 1) && And(hash, Pow2(k) - 1) < Pow2(k)
    decreases k
  {
    Pow2Monotonic(0, k);
    if k == 0 {
      q := hash;
    } else {
      q := MaskIsRemainder(hash / 2, k - 1);
      assert (2 * Pow2(k - 1) - 1) / 2 == Pow2(k - 1) - 1;
      if hash == 0 {
        q := 0;
        ScaleZero(k);
      }
    }
  }

  lemma {:induction false} ScaleZero(k: nat)
    ensures Scale(0, k) == 0
  {
    if k != 0 {
      ScaleZero(k - 1);
    }
  }

  /** The least power of two that is no smaller; of zero, one. */
  method NextPowerOfTwo(n: nat) returns (r: nat, ghost k: nat)
    ensures r == Pow2(k) && r >= n && (k == 0 || Pow2(k - 1) < n)
  {
    r, k := 1, 0;
    while r < n
      invariant r == Pow2(k) >= 1 && (k == 0 || Pow2(k - 1) < n)
      decreases n - r
    {
      r, k := 2 * r, k + 1;
    }
  }

  datatype InternedSpan = InternedSpan(start: nat, end: nat)

  datatype InternedBucket = InternedBucket(hash: u64, len: nat, index: nat)

  /** Each span names the items of one slice. */
  ghost predicate Cut<T>(items: seq<T>, spans: seq<InternedSpan>, distinct: seq<seq<T>>) {
    |spans| == |distinct| && forall i :: 0 <= i < |spans| ==> Holds(items, spans[i], distinct[i])
  }

  ghost predicate Holds<T>(items: seq<T>, span: InternedSpan, slice: seq<T>) {
    span.start <= span.end <= |items| && items[span.start..span.end] == slice
  }

  /** Chains name only interned slices, and name each in the chain of its hash. */
  ghost predicate Chained<T>(buckets: seq<seq<InternedBucket>>, mask: nat, hash: seq<T> -> u64, distinct: seq<seq<T>>) {
    && (forall b :: 0 <= b < |buckets| ==> ChainOk(buckets[b], |distinct|))
    && (forall i :: 0 <= i < |distinct| ==> Listed(buckets, mask, hash, distinct[i], i))
  }

  predicate ChainOk(chain: seq<InternedBucket>, count: nat) {
    forall k :: 0 <= k < |chain| ==> chain[k].index < count
  }

  predicate Listed<T>(buckets: seq<seq<InternedBucket>>, mask: nat, hash: seq<T> -> u64, slice: seq<T>, index: nat) {
    var at := And(hash(slice), mask);
    at < |buckets| && InternedBucket(hash(slice), |slice|, index) in buckets[at]
  }

  lemma {:induction false} CutSnoc<T>(items: seq<T>, spans: seq<InternedSpan>, distinct: seq<seq<T>>, slice: seq<T>,
                                      span: InternedSpan)
    requires Cut(items, spans, distinct) && span == InternedSpan(|items|, |items| + |slice|)
    ensures Cut(items + slice, spans + [span], distinct + [slice])
  {
    var more := items + slice;
    assert Holds(more, span, slice);
    forall i | 0 <= i < |spans|
      ensures Holds(more, spans[i], distinct[i])
    {
      assert Holds(items, spans[i], distinct[i]);
      assert more[spans[i].start..spans[i].end] == items[spans[i].start..spans[i].end];
    }
  }

  lemma {:induction false} ChainedSnoc<T>(buckets: seq<seq<InternedBucket>>, mask: nat, hash: seq<T> -> u64,
                                          distinct: seq<seq<T>>, slice: seq<T>, at: nat, entry: InternedBucket)
    requires at < |buckets| && Chained(buckets, mask, hash, distinct)
    requires at == And(hash(slice), mask) && entry == InternedBucket(hash(slice), |slice|, |distinct|)
    ensures Chained(buckets[at := buckets[at] + [entry]], mask, hash, distinct + [slice])
  {
    var (longer, more) := (buckets[at := buckets[at] + [entry]], distinct + [slice]);
    forall b | 0 <= b < |longer|
      ensures ChainOk(longer[b], |more|)
    {
      assert ChainOk(buckets[b], |distinct|);
    }
    forall i | 0 <= i < |more|
      ensures Listed(longer, mask, hash, more[i], i)
    {
      assert i < |distinct| ==> Listed(buckets, mask, hash, distinct[i], i);
    }
  }

  lemma {:induction false} Pushed<T>(items: seq<T>, spans: seq<InternedSpan>, buckets: seq<seq<InternedBucket>>,
                                     chained: seq<seq<InternedBucket>>, mask: nat, hash: seq<T> -> u64,
                                     history: seq<seq<T>>, slice: seq<T>, span: InternedSpan, at: nat,
                                     entry: InternedBucket)
    requires Cut(items, spans, Distinct(history)) && Chained(buckets, mask, hash, Distinct(history))
    requires slice !in Distinct(history) && span == InternedSpan(|items|, |items| + |slice|)
    requires at == And(hash(slice), mask) && entry == InternedBucket(hash(slice), |slice|, |spans|)
    requires at < |buckets| && chained == buckets[at := buckets[at] + [entry]]
    ensures Cut(items + slice, spans + [span], Distinct(history + [slice]))
    ensures Chained(chained, mask, hash, Distinct(history + [slice]))
  {
    var before := Distinct(history);
    IdOfNext(history, slice);
    assert Distinct(history + [slice]) == before + [slice];
    CutSnoc(items, spans, before, slice, span);
    ChainedSnoc(buckets, mask, hash, before, slice, at, entry);
  }

  class InternedSlices<T(==)> {
    const hash: seq<T> -> u64
    var buckets: seq<seq<InternedBucket>>
    var mask: nat
    var slices: seq<T>
    var spans: seq<InternedSpan>
    ghost var history: seq<seq<T>>

    /** Spans cut the items into the distinct slices so far, and every slice is in the chain of its hash. */
    ghost predicate Valid()
      reads this
    {
      && |buckets| == mask + 1
      && Cut(slices, spans, Distinct(history))
      && Chained(buckets, mask, hash, Distinct(history))
    }

    constructor (bucketCount: nat, hash: seq<T> -> u64)
      ensures Valid() && history == [] && this.hash == hash
      ensures |buckets| >= bucketCount
      ensures exists k: nat :: |buckets| == Pow2(k) && (k == 0 || Pow2(k - 1) < bucketCount)
    {
      ghost var k;
      var count;
      count, k := NextPowerOfTwo(bucketCount);
      Pow2Monotonic(0, k);
      this.hash := hash;
      buckets := seq(count, _ => []);
      mask := count - 1;
      slices, spans, history := [], [], [];
    }

    /** Finds exactly the slices that were interned. */
    method FindId(slice: seq<T>) returns (r: Option<nat>)
      requires Valid()
      ensures r.Some? <==> slice in history
      ensures r.Some? ==> slice in Distinct(history) && r.value == IndexOf(Distinct(history), slice)
    {
      DistinctHolds(history);
      var code := hash(slice);
      var chain := buckets[And(code, mask)];
      for k := 0 to |chain|
        invariant forall j :: 0 <= j < k ==>
                    chain[j].hash == code && chain[j].len == |slice| ==> Distinct(history)[chain[j].index] != slice
      {
        assert ChainOk(chain, |Distinct(history)|);
        if chain[k].hash == code && chain[k].len == |slice| {
          var span := spans[chain[k].index];
          assert Holds(slices, span, Distinct(history)[chain[k].index]);
          if slices[span.start..span.end] == slice {
            return Some(chain[k].index);
          }
        }
      }
      ghost var distinct := Distinct(history);
      assert forall i :: 0 <= i < |distinct| && Listed(buckets, mask, hash, distinct[i], i) ==> distinct[i] != slice;
      return None;
    }

    /** Returns the slice's id, interning it first if it is new. */
    method ToId(slice: seq<T>) returns (id: nat)
      requires Valid()
      modifies this
      ensures Valid() && history == old(history) + [slice]
      ensures id == IdAt(history, |history| - 1)
    {
      IdWhenSeen(history, slice, history + [slice], |history + [slice]| - 1);
      var code := hash(slice);
      var found := FindId(slice);
      if found.Some? {
        Repeat(slice);
        return found.value;
      }
      id := |spans|;
      Push(slice, code);
    }

    /** A slice that is interned already only makes the history longer. */
    ghost method Repeat(slice: seq<T>)
      requires Valid() && slice in Distinct(history)
      modifies this`history
      ensures Valid() && history == old(history) + [slice]
    {
      IdOfNext(history, slice);
      history := history + [slice];
    }

    /** Adds a new slice: its span, its entry in the chain of its hash, and its items. */
    method Push(slice: seq<T>, code: u64)
      requires Valid() && slice !in Distinct(history) && code == hash(slice)
      modifies this
      ensures Valid() && history == old(history) + [slice]
    {
      var span := InternedSpan(|slices|, |slices| + |slice|);
      var at, entry := And(code, mask), InternedBucket(code, |slice|, |spans|);
      var chained := buckets[at := buckets[at] + [entry]];
      Pushed(slices, spans, buckets, chained, mask, hash, history, slice, span, at, entry);
      spans := spans + [span];
      buckets := chained;
      slices := slices + slice;
      history := history + [slice];
    }

    /** The slice of an id that was handed out. */
    method FromId(id: nat) returns (r: Option<seq<T>>)
      requires Valid()
      ensures r == if id < |Distinct(history)| then Some(Distinct(history)[id]) else None
    {
      if id < |spans| {
        assert Holds(slices, spans[id], Distinct(history)[id]);
        return Some(slices[spans[id].start..spans[id].end]);
      }
      return None;
    }

    /** The calls made for each: every interned slice once, in the order of ids. */
    method ForEach() returns (calls: seq<(nat, seq<T>)>)
      requires Valid()
      ensures |calls| == |Distinct(history)|
      ensures forall i :: 0 <= i < |calls| ==> calls[i] == (i, Distinct(history)[i])
    {
      calls := [];
      for i := 0 to |spans|
        invariant |calls| == i
        invariant forall j :: 0 <= j < i ==> calls[j] == (j, Distinct(history)[j])
      {
        assert Holds(slices, spans[i], Distinct(history)[i]);
        calls := calls + [(i, slices[spans[i].start..spans[i].end])];
      }
    }
  }
}
