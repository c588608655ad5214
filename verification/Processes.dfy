/** The modules of a process and the search for the one that covers an address. */
module Processes {
  import opened MachineInt
  import opened Outcome
  import opened Sorting

  datatype ModuleKey = ModuleKey(dev: u64, ino: u64)

  /** A loaded code section with an inclusive end. */
  datatype Module = Module(start: u64, end: u64, offset: u64, vaOffset: u64, key: ModuleKey, prolog: bool) {

    predicate Contains(ip: u64) { start <= ip <= end }

    /** The address in the ELF file that `ip` was loaded from. */
    function Rva(ip: u64): u64 { ToU64(ip - start + offset + vaOffset) }
  }

  /** An address is as far from the module's start as its file address from where the module's section is. */
  lemma {:induction false} RvaIsUndone(m: Module, ip: u64)
    requires m.Contains(ip)
    ensures ip == m.start + ToU64(m.Rva(ip) - ToU64(m.offset + m.vaOffset))
    ensures m.offset + m.vaOffset + (m.end - m.start) < TWO_64 ==>
              m.Rva(ip) - (m.offset + m.vaOffset) == ip - m.start
  {
    var far, base := ip - m.start, m.offset + m.vaOffset;
    var q := (far + base) / TWO_64;
    assert m.Rva(ip) == far + base - q * TWO_64;
    var p := base / TWO_64;
    assert ToU64(base) == base - p * TWO_64;
    assert m.Rva(ip) - ToU64(base) == far + (p - q) * TWO_64;
    ModTwo64(far, p - q);
    SmallMod(far);
  }

  function StartOf(m: Module): int { m.start }

  function SortModules(mods: seq<Module>): seq<Module> { StableSort(mods, StartOf) }

  /** Index of the last module that starts at or before `ip`. */
  ghost predicate LastAtOrBefore(mods: seq<Module>, ip: u64, k: nat) {
    && k < |mods| && mods[k].start <= ip
    && forall j :: k < j < |mods| ==> mods[j].start > ip
  }

  /** The last module that starts at or before the address, provided it reaches that far. */
  function Covering(mods: seq<Module>, ip: u64): Option<Module> {
    if mods == [] then None
    else
      var last := mods[|mods| - 1];
      if last.start > ip then Covering(mods[..|mods| - 1], ip)
      else if last.end >= ip then Some(last) else None
  }

  lemma {:induction false} CoveringIsLast(mods: seq<Module>, ip: u64, k: nat)
    requires LastAtOrBefore(mods, ip, k)
    ensures Covering(mods, ip) == if mods[k].end >= ip then Some(mods[k]) else None
  {
    if k < |mods| - 1 {
      CoveringIsLast(mods[..|mods| - 1], ip, k);
    }
  }

  lemma {:induction false} NothingCovers(mods: seq<Module>, ip: u64)
    requires forall k :: 0 <= k < |mods| ==> mods[k].start > ip
    ensures Covering(mods, ip) == None
  {
    if mods != [] {
      NothingCovers(mods[..|mods| - 1], ip);
    }
  }

  /** The module before the partition point decides. */
  lemma {:induction false} PartitionCovers(mods: seq<Module>, ip: u64, n: nat)
    requires mods != [] && n <= |mods|
    requires forall j :: 0 <= j < n ==> StartOf(mods[j]) <= ip
    requires forall j :: n <= j < |mods| ==> StartOf(mods[j]) > ip
    ensures var m := mods[if n == 0 then 0 else n - 1];
      Covering(mods, ip) == if m.start <= ip && m.end >= ip then Some(m) else None
  {
    assert forall j :: n <= j < |mods| ==> mods[j].start == StartOf(mods[j]);
    if n == 0 {
      NothingCovers(mods, ip);
    } else {
      assert StartOf(mods[n - 1]) <= ip;
      CoveringIsLast(mods, ip, n - 1);
    }
  }

  lemma {:induction false} CoveringContains(mods: seq<Module>, ip: u64)
    ensures Covering(mods, ip).Some? ==> Covering(mods, ip).value in mods && Covering(mods, ip).value.Contains(ip)
  {
    if mods != [] {
      CoveringContains(mods[..|mods| - 1], ip);
    }
  }

  /** With ranges that do not overlap, a module is found exactly when one contains the address, and it is that one. */
  lemma {:induction false} CoveringIsComplete(mods: seq<Module>, ip: u64, k: nat)
    requires SortedBy(mods, StartOf) && k < |mods| && mods[k].Contains(ip)
    requires forall i, j :: 0 <= i < j < |mods| ==> mods[i].end < mods[j].start
    ensures Covering(mods, ip) == Some(mods[k])
  {
    if k < |mods| - 1 {
      var init := mods[..|mods| - 1];
      assert forall i, j :: 0 <= i < j < |init| ==> StartOf(init[i]) <= StartOf(init[j]);
      CoveringIsComplete(init, ip, k);
      assert mods[k].end < mods[|mods| - 1].start;
    }
  }

  class Process {
    var mods: seq<Module>
    var sorted: bool

    constructor ()
      ensures Valid() && mods == [] && !sorted
    {
      mods, sorted := [], false;
    }

    predicate Valid()
      reads this
    {
      sorted ==> mods == SortModules(mods)
    }

    method AddModule(m: Module)
      requires Valid()
      modifies this
      ensures Valid() && mods == old(mods) + [m] && !sorted
    {
      mods := mods + [m];
      sorted := false;
    }

    /** fork: a fresh process with the same modules; it is not marked sorted. */
    method Fork() returns (child: Process)
      requires Valid()
      ensures fresh(child) && child.Valid() && child.mods == mods && !child.sorted
    {
      child := new Process();
      var i := 0;
      while i < |mods|
        invariant i <= |mods| && child.mods == mods[..i] && !child.sorted
      {
        child.mods := child.mods + [mods[i]];
        i := i + 1;
      }
    }

    method Sort()
      requires Valid()
      modifies this
      ensures Valid() && sorted && mods == SortModules(old(mods))
    {
      if !sorted {
        mods := SortModules(mods);
        sorted := true;
        StableSortSorted(old(mods), StartOf);
        SortedIsFixed(mods, StartOf);
      }
    }

    /** find: binary search over the sorted modules. */
    method Find(ip: u64) returns (r: Option<Module>)
      requires Valid() && sorted
      ensures r == Covering(mods, ip)
    {
      if mods == [] {
        return None;
      }
      StableSortSorted(mods, StartOf);
      var index := PartitionPoint(mods, StartOf, ip);
      PartitionCovers(mods, ip, index);
      index := if index == 0 then 0 else index - 1;
      var m := mods[index];
      return if m.start <= ip && m.end >= ip then Some(m) else None;
    }
  }
}
