/** Matching symbols of a file with sampled addresses of a mapping. */
module Symbols {
  import opened MachineInt
  import opened Outcome
  import opened Sorting

  const KERNEL_START: u64 := 0xFFFF_8000_0000_0000

  /** A symbol as a reader gives it: a range of file offsets, or of addresses for kernel and anonymous code. */
  datatype ReaderSymbol = ReaderSymbol(start: u64, end: u64, name: string, demangled: Option<string>)

  datatype Symbol = Symbol(name: string, start: u64, end: u64)

  datatype Range = Range(start: u64, end: u64)

  /** The part of a file that is mapped, and where. */
  datatype Section = Section(start: u64, end: u64, fileOffset: u64, anon: bool) {
    predicate IsFile() { !anon && start < KERNEL_START }

    /** The last file offset that is mapped. */
    function FileEnd(): u64 { Plus(fileOffset, Minus(end, start)) }
  }

  /** The addresses of a range of file offsets, clamped to the mapping. */
  function FileToVaRange(m: Section, fileStart: u64, fileEnd: u64): Option<Range> {
    if !m.IsFile() then Some(Range(fileStart, fileEnd))
    else if fileEnd < m.fileOffset || fileStart > m.FileEnd() then None
    else
      var from := if fileStart < m.fileOffset then m.fileOffset else fileStart;
      var to := if fileEnd > m.FileEnd() then m.FileEnd() else fileEnd;
      var vaStart := Plus(Minus(from, m.fileOffset), m.start);
      Some(Range(vaStart, Plus(vaStart, Minus(to, from))))
  }

  /** The mapping's addresses and file offsets are those of a file that fits the address space. */
  predicate Regular(m: Section) {
    m.start <= m.end && m.fileOffset + (m.end - m.start) < TWO_64
  }

  predicate Within(range: Option<Range>, ip: u64) {
    range.Some? && range.value.start <= ip <= range.value.end
  }

  /**
   An address is in the converted range exactly when it is mapped and the file offset mapped there is in the
   file's range; in particular the converted range lies inside the mapping.
   */
  lemma {:induction false} VaRangeIsMappedFileRange(m: Section, fileStart: u64, fileEnd: u64, ip: u64)
    requires m.IsFile() && Regular(m) && fileStart <= fileEnd
    ensures Within(FileToVaRange(m, fileStart, fileEnd), ip)
       <==> m.start <= ip <= m.end && fileStart <= m.fileOffset + (ip - m.start) <= fileEnd
    ensures var r := FileToVaRange(m, fileStart, fileEnd);
      r.Some? ==> m.start <= r.value.start <= r.value.end <= m.end
  {
  }

  /** How a symbol's range is compared with the sampled addresses. */
  ghost predicate Hit(range: Option<Range>, ips: seq<u64>) {
    range.Some? && (range.value.start in ips || exists k :: 0 <= k < |ips| && Within(range, ips[k]))
  }

  function NameOf(s: ReaderSymbol): string {
    if s.demangled.Some? then s.demangled.value else s.name
  }

  /** The symbols whose ranges are hit, in reader order. */
  ghost function Matching(m: Section, read: seq<ReaderSymbol>, ips: seq<u64>): seq<Symbol> {
    if read == [] then []
    else
      var last := read[|read| - 1];
      var range := FileToVaRange(m, last.start, last.end);
      Matching(m, read[..|read| - 1], ips)
      + (if Hit(range, ips) then [Symbol(NameOf(last), range.value.start, range.value.end)] else [])
  }

  /** A symbol of a mapped file is hit exactly when an address was sampled where its file range is mapped. */
  lemma {:induction false} HitIffSampled(m: Section, fileStart: u64, fileEnd: u64, ips: seq<u64>)
    requires m.IsFile() && Regular(m) && fileStart <= fileEnd
    ensures Hit(FileToVaRange(m, fileStart, fileEnd), ips)
       <==> exists k :: 0 <= k < |ips| && m.start <= ips[k] <= m.end
                        && fileStart <= m.fileOffset + (ips[k] - m.start) <= fileEnd
  {
  }

  /** The addresses of a symbol: as the reader gives them, or where its part of the file is mapped. */
  predicate Covers(m: Section, s: ReaderSymbol, ip: u64) {
    if m.anon || m.start >= KERNEL_START then s.start <= ip <= s.end
    else m.start <= ip <= m.end && s.start <= m.fileOffset + (ip - m.start) <= s.end
  }

  /** For kernel and anonymous mappings the reader's range is a range of addresses already. */
  lemma {:induction false} RangeIsCovered(m: Section, s: ReaderSymbol, ip: u64)
    requires m.IsFile() ==> Regular(m) && s.start <= s.end
    ensures Within(FileToVaRange(m, s.start, s.end), ip) <==> Covers(m, s, ip)
  {
    if m.IsFile() {
      VaRangeIsMappedFileRange(m, s.start, s.end, ip);
    }
  }

  /** A symbol is hit exactly when one of its addresses was sampled. */
  lemma {:induction false} HitIffCovered(m: Section, s: ReaderSymbol, ips: seq<u64>)
    requires (m.IsFile() ==> Regular(m)) && s.start <= s.end
    ensures Hit(FileToVaRange(m, s.start, s.end), ips) <==> exists k :: 0 <= k < |ips| && Covers(m, s, ips[k])
  {
    var range := FileToVaRange(m, s.start, s.end);
    forall k | 0 <= k < |ips|
      ensures Within(range, ips[k]) <==> Covers(m, s, ips[k])
    {
      RangeIsCovered(m, s, ips[k]);
    }
    if range.Some? {
      StartIsWithin(m, s);
      if range.value.start in ips {
        var k :| 0 <= k < |ips| && ips[k] == range.value.start;
        assert Covers(m, s, ips[k]);
      }
    }
  }

  lemma {:induction false} StartIsWithin(m: Section, s: ReaderSymbol)
    requires (m.IsFile() ==> Regular(m)) && s.start <= s.end
    ensures var range := FileToVaRange(m, s.start, s.end); range.Some? ==> Within(range, range.value.start)
  {
    if m.IsFile() {
      VaRangeIsMappedFileRange(m, s.start, s.end, 0);
    }
  }

  /** The symbol of a mapping that a reader's symbol becomes: its addresses, and its name, demangled if it can be. */
  ghost predicate Becomes(m: Section, r: ReaderSymbol, s: Symbol) {
    && (if r.demangled == None then s.name == r.name else Some(s.name) == r.demangled)
    && forall ip: u64 :: s.start <= ip <= s.end <==> Covers(m, r, ip)
  }

  predicate Sampled(m: Section, r: ReaderSymbol, ips: seq<u64>) {
    exists k :: 0 <= k < |ips| && Covers(m, r, ips[k])
  }

  /** Rising positions of exactly the symbols that were sampled. */
  ghost predicate Picks(m: Section, read: seq<ReaderSymbol>, ips: seq<u64>, at: seq<nat>) {
    && (forall i, j :: 0 <= i < j < |at| ==> at[i] < at[j])
    && (forall i :: 0 <= i < |at| ==> at[i] < |read|)
    && forall n :: 0 <= n < |read| ==> (Sampled(m, read[n], ips) <==> n in at)
  }

  ghost predicate AllBecome(m: Section, read: seq<ReaderSymbol>, at: seq<nat>, symbols: seq<Symbol>) {
    |at| == |symbols| && forall i :: 0 <= i < |at| ==> at[i] < |read| && Becomes(m, read[at[i]], symbols[i])
  }

  /** What is added to a mapping of any kind: the symbols with a sampled address, in reader order. */
  lemma {:induction false} MatchingAre(m: Section, read: seq<ReaderSymbol>, ips: seq<u64>) returns (at: seq<nat>)
    requires (m.IsFile() ==> Regular(m)) && forall r :: r in read ==> r.start <= r.end
    ensures Picks(m, read, ips, at) && AllBecome(m, read, at, Matching(m, read, ips))
  {
    at := [];
    if read != [] {
      var before, last := read[..|read| - 1], read[|read| - 1];
      at := MatchingAre(m, before, ips);
      assert before + [last] == read;
      HitIffCovered(m, last, ips);
      var range := FileToVaRange(m, last.start, last.end);
      var symbol := if range.Some? then Symbol(NameOf(last), range.value.start, range.value.end) else Symbol("", 0, 0);
      if Sampled(m, last, ips) {
        forall ip: u64
          ensures symbol.start <= ip <= symbol.end <==> Covers(m, last, ip)
        {
          RangeIsCovered(m, last, ip);
        }
      }
      PicksNext(m, before, last, ips, at, Matching(m, before, ips), symbol, |before|);
      if Sampled(m, last, ips) {
        at := at + [|before|];
      }
    }
  }

  lemma {:induction false} PicksNext(m: Section, before: seq<ReaderSymbol>, last: ReaderSymbol, ips: seq<u64>,
                                     at: seq<nat>, symbols: seq<Symbol>, symbol: Symbol, n: nat)
    requires Picks(m, before, ips, at) && AllBecome(m, before, at, symbols) && n == |before|
    requires Sampled(m, last, ips) ==> Becomes(m, last, symbol)
    ensures Sampled(m, last, ips) ==>
              Picks(m, before + [last], ips, at + [n]) && AllBecome(m, before + [last], at + [n], symbols + [symbol])
    ensures !Sampled(m, last, ips) ==>
              Picks(m, before + [last], ips, at) && AllBecome(m, before + [last], at, symbols)
  {
    assert n !in at;
    assert forall k :: k in at + [n] <==> k in at || k == n;
  }

  function Self(ip: u64): int { ip }

  /** Whether sorted addresses hold a value, and where it is or would be. */
  method BinarySearch(ips: seq<u64>, value: u64) returns (found: bool, i: nat)
    requires SortedBy(ips, Self)
    ensures i <= |ips| && (found ==> i < |ips| && ips[i] == value)
    ensures !found ==> (forall k :: 0 <= k < i ==> ips[k] < value) && forall k :: i <= k < |ips| ==> ips[k] > value
  {
    var n := PartitionPoint(ips, Self, value);
    assert forall k :: 0 <= k < |ips| ==> Self(ips[k]) == ips[k];
    if n > 0 && ips[n - 1] == value {
      return true, n - 1;
    }
    assert n > 0 ==> forall k :: 0 <= k < n ==> Self(ips[k]) <= Self(ips[n - 1]);
    return false, n;
  }

  class ExportMapping {
    const section: Section
    var symbols: seq<Symbol>

    constructor (section: Section)
      ensures this.section == section && symbols == []
    {
      this.section := section;
      symbols := [];
    }

    /** Sorts the addresses and appends exactly the symbols that one of them hits, in reader order. */
    method AddMatchingSymbols(uniqueIps: seq<u64>, read: seq<ReaderSymbol>) returns (sorted: seq<u64>)
      modifies this
      ensures sorted == StableSort(uniqueIps, Self)
      ensures symbols == old(symbols) + Matching(section, read, sorted)
    {
      sorted := StableSort(uniqueIps, Self);
      StableSortSorted(uniqueIps, Self);
      for n := 0 to |read|
        invariant symbols == old(symbols) + Matching(section, read[..n], sorted)
      {
        assert read[..n + 1][..n] == read[..n];
        var range := FileToVaRange(section, read[n].start, read[n].end);
        var addSym := IsHit(range, sorted);
        if addSym {
          symbols := symbols + [Symbol(NameOf(read[n]), range.value.start, range.value.end)];
        }
      }
      assert read[..|read|] == read;
    }

    /** The first address at or after the range's start decides. */
    method IsHit(range: Option<Range>, ips: seq<u64>) returns (addSym: bool)
      requires SortedBy(ips, Self)
      ensures addSym <==> Hit(range, ips)
    {
      if range.None? {
        return false;
      }
      var found, i := BinarySearch(ips, range.value.start);
      if found {
        return true;
      }
      assert range.value.start !in ips;
      addSym := i < |ips| && ips[i] <= range.value.end;
      if addSym {
        assert Within(range, ips[i]);
      } else {
        assert forall k :: i <= k < |ips| ==> Self(ips[i]) <= Self(ips[k]);
      }
    }
  }

  /** Sorting only rearranges, so the order the addresses come in does not matter to a hit. */
  lemma {:induction false} SortingKeepsHits(range: Option<Range>, ips: seq<u64>)
    ensures Hit(range, StableSort(ips, Self)) <==> Hit(range, ips)
  {
    var sorted := StableSort(ips, Self);
    StableSortSorted(ips, Self);
    assert forall ip :: ip in sorted <==> ip in multiset(sorted);
    assert forall ip :: ip in ips <==> ip in multiset(ips);
    if exists k :: 0 <= k < |ips| && Within(range, ips[k]) {
      var k :| 0 <= k < |ips| && Within(range, ips[k]);
      assert ips[k] in sorted;
      var j :| 0 <= j < |sorted| && sorted[j] == ips[k];
      assert Within(range, sorted[j]);
    }
    if exists k :: 0 <= k < |sorted| && Within(range, sorted[k]) {
      var k :| 0 <= k < |sorted| && Within(range, sorted[k]);
      assert sorted[k] in ips;
      var j :| 0 <= j < |ips| && ips[j] == sorted[k];
      assert Within(range, ips[j]);
    }
  }
}
