/** When the session's field references stand exactly on the bytes the kernel wrote for them. */
module PerfLayouts {
  import opened MachineInt
  import opened Bytes
  import opened Outcome
  import opened PerfRecords

  /** Some bytes stand at an offset. */
  predicate PartAt(data: seq<u8>, offset: nat, part: seq<u8>) {
    offset + |part| <= |data| && data[offset..offset + |part|] == part
  }

  lemma {:induction false} PartSplits(data: seq<u8>, offset: nat, x: seq<u8>, y: seq<u8>)
    requires PartAt(data, offset, x + y)
    ensures PartAt(data, offset, x) && PartAt(data, offset + |x|, y)
  {
    var whole := data[offset..offset + |x + y|];
    assert x == whole[..|x|] == data[offset..offset + |x|];
    assert y == whole[|x|..] == data[offset + |x|..offset + |x| + |y|];
  }

  lemma {:induction false} ReadsWord(data: seq<u8>, offset: u64, v: u64)
    requires PartAt(data, offset, Word(v))
    ensures ReadWord(data, offset) == Ok(v)
  {
  }

  lemma {:induction false} ReadsHalf(data: seq<u8>, offset: u64, v: u32)
    requires PartAt(data, offset, Half(v))
    ensures ReadHalf(data, offset) == Ok(v)
  {
  }

  // --- one section ----------------------------------------------------------------------------------------

  /** What a section must be like for its own field, and all behind it, to be found. */
  predicate Supported(kind: Kind, a: Attributes, m: Sample) {
    kind in a.sampleType ==>
      && (kind == READ ==> |m.read| == 8 * |a.readFormat|)
      && (kind == REGS_USER ==> m.abi != 1 || a.regsUserCount == 0)
      && (kind == CGROUP ==> a.sampleType * UNPARSED == {})
  }

  /** A section as it stands in a record. */
  ghost function Section(kind: Kind, a: Attributes, m: Sample): seq<u8> {
    if kind in a.sampleType then PartOf(kind, m).Bytes() else []
  }

  /** A step ends behind the section with the section's field on its own bytes. */
  ghost predicate StepsOver(kind: Kind, a: Attributes, m: Sample, offset: nat, s: State, r: Result<State>) {
    && r.Ok?
    && r.value.offset == offset + |Section(kind, a, m)|
    && r.value.fields == s.fields + Fills(kind, a, m, offset)
  }

  /** The step fails, or leaves the section's field elsewhere. */
  ghost predicate Misses(kind: Kind, m: Sample, offset: nat, r: Result<State>) {
    r.Err? || (NameOf(kind) in r.value.fields && r.value.fields[NameOf(kind)] != Own(kind, m, offset))
  }

  /** A section is stepped over with its field in place exactly when it is supported. */
  ghost predicate Judged(kind: Kind, a: Attributes, m: Sample, data: seq<u8>, s: State) {
    var r := Step(kind, a, data, s);
    if Supported(kind, a, m) then StepsOver(kind, a, m, s.offset, s, r) else Misses(kind, m, s.offset, r)
  }

  predicate Fits(data: seq<u8>, a: Attributes, m: Sample) {
    |data| < TWO_16 && Wellformed(a, m)
  }

  lemma {:induction false} PartsAt(kind: Kind, m: Sample, data: seq<u8>, offset: nat)
    requires PartAt(data, offset, PartOf(kind, m).Bytes())
    ensures var part := PartOf(kind, m);
      && PartAt(data, offset, part.prefix)
      && PartAt(data, offset + |part.prefix|, part.own)
      && PartAt(data, offset + |part.prefix| + |part.own|, part.rest)
  {
    var part := PartOf(kind, m);
    PartSplits(data, offset, part.prefix + part.own, part.rest);
    PartSplits(data, offset, part.prefix, part.own);
  }

  lemma {:induction false} JoinLength(parts: seq<seq<u8>>, size: nat)
    requires forall k :: 0 <= k < |parts| ==> |parts[k]| == size
    ensures |Join(parts)| == |parts| * size
  {
    if parts != [] {
      var before, n := parts[..|parts| - 1], |parts| - 1;
      JoinLength(before, size);
      assert |Join(parts)| == n * size + size == (n + 1) * size;
    }
  }

  /** In a record, offsets and lengths are too small to wrap around. */
  lemma {:induction false} SmallUpdate(s: State, name: Name, len: nat)
    requires s.offset + len < TWO_16
    ensures Update(s, name, len) == s.(offset := s.offset + len, fields := s.fields[name := FieldAt(s.offset, len)])
    ensures Plus(s.offset, len) == s.offset + len
  {
  }

  lemma {:induction false} CountedReads(data: seq<u8>, s: State, name: Name, size: nat, count: nat, total: nat)
    requires PartAt(data, s.offset, Word(Size64(count)))
    requires total == count * size && count < TWO_16 && s.offset + 8 + total < TWO_16
    ensures Counted(s, data, name, size)
         == Ok(State(s.offset + 8 + total, s.fields[name := FieldAt(s.offset + 8, total)], s.event))
  {
    ReadsWord(data, s.offset, Size64(count));
    assert Size64(count) * size % TWO_64 == total;
    SmallUpdate(s.(offset := s.offset + 8), name, total);
  }

  lemma {:induction false} RawReads(data: seq<u8>, s: State, size: nat, end: nat)
    requires PartAt(data, s.offset, Half(size % TWO_32)) && |data| < TWO_16
    requires end == s.offset + 4 + size + Padding(4 + size) <= |data|
    ensures RawSection(s, data) == Ok(State(end, s.fields[RAW := FieldAt(s.offset + 4, size)],
                                            Some(LittleEndian(data[s.offset + 4..s.offset + 6]))))
  {
    AlignIsPadding(4 + size);
    assert 4 + size + Padding(4 + size) >= 8;
    ReadsHalf(data, s.offset, size);
    assert ReadQuarter(data, s.offset + 4) == Ok(LittleEndian(data[s.offset + 4..s.offset + 6]));
    SmallUpdate(s.(offset := s.offset + 4), RAW, size);
  }

  lemma {:induction false} RegsSize(n: nat, abi: u64, size: nat)
    requires n < TWO_16 && 1 <= abi <= 2 && size == if abi == 1 then 4 * n else 8 * n
    ensures n * (abi * 4 % TWO_64) % TWO_64 == size
  {
    var bytes := abi * 4;
    SmallMod(bytes);
    assert n * bytes == size;
    SmallMod(size);
  }

  lemma {:induction false} RegsReads(a: Attributes, data: seq<u8>, s: State, abi: u64, size: nat)
    requires PartAt(data, s.offset, Word(abi)) && 1 <= abi <= 2 && a.regsUserCount < TWO_16
    requires size == if abi == 1 then 4 * a.regsUserCount else 8 * a.regsUserCount
    requires s.offset + 8 + size < TWO_16
    ensures RegsSection(a, s, data)
         == Ok(State(s.offset + 8 + size, s.fields[REGS_USER := FieldAt(s.offset + 8, size)], s.event))
  {
    ReadsWord(data, s.offset, abi);
    RegsSize(a.regsUserCount, abi, size);
    SmallUpdate(s.(offset := s.offset + 8), REGS_USER, size);
  }

  lemma {:induction false} StackReads(data: seq<u8>, s: State, size: nat, read: nat, start: nat, end: nat)
    requires PartAt(data, s.offset, Word(Size64(size))) && |data| < TWO_16
    requires start == s.offset + 8 && end == start + size && 0 < size && end + 8 <= |data|
    requires read <= size && PartAt(data, end, Word(read))
    ensures StackSection(s, data)
         == Ok(State(end + 8, s.fields[STACK_USER := FieldAt(start, read)], s.event))
  {
    ReadsWord(data, s.offset, Size64(size));
    assert Plus(s.offset, 8) == start && Plus(start, Size64(size)) == end;
    ReadsWord(data, end, read);
  }

  lemma {:induction false} NoStackReads(data: seq<u8>, s: State)
    requires PartAt(data, s.offset, Word(0)) && |data| < TWO_16
    ensures StackSection(s, data) == Ok(State(s.offset + 8, s.fields[STACK_USER := NO_FIELD], s.event))
  {
    ReadsWord(data, s.offset, 0);
  }

  lemma {:induction false} CountedSteps(kind: Kind, a: Attributes, m: Sample, data: seq<u8>, s: State)
    requires Fits(data, a, m) && (kind == CALLCHAIN || kind == BRANCH_STACK) && kind in a.sampleType
    requires PartAt(data, s.offset, PartOf(kind, m).Bytes())
    ensures Judged(kind, a, m, data, s)
  {
    PartsAt(kind, m, data, s.offset);
    if kind == CALLCHAIN {
      CountedReads(data, s, CALLCHAIN, 8, |m.ips|, 8 * |m.ips|);
    } else {
      JoinLength(m.branches, 24);
      CountedReads(data, s, BRANCH_STACK, 24, |m.branches|, |m.branches| * 24);
    }
  }

  lemma {:induction false} RawSteps(a: Attributes, m: Sample, data: seq<u8>, s: State)
    requires Fits(data, a, m) && RAW in a.sampleType
    requires PartAt(data, s.offset, PartOf(RAW, m).Bytes())
    ensures Judged(RAW, a, m, data, s)
  {
    PartsAt(RAW, m, data, s.offset);
    RawReads(data, s, |m.raw|, s.offset + 4 + |m.raw| + Padding(4 + |m.raw|));
  }

  /** The data starts with the event's id. */
  lemma {:induction false} RawStartsWithId(a: Attributes, m: Sample, data: seq<u8>, s: State)
    requires Fits(data, a, m) && RAW in a.sampleType && |m.raw| >= 2
    requires PartAt(data, s.offset, PartOf(RAW, m).Bytes())
    ensures Step(RAW, a, data, s).Ok? && Step(RAW, a, data, s).value.event == Some(LittleEndian(m.raw[..2]))
  {
    PartsAt(RAW, m, data, s.offset);
    RawReads(data, s, |m.raw|, s.offset + 4 + |m.raw| + Padding(4 + |m.raw|));
    assert m.raw == data[s.offset + 4..s.offset + 4 + |m.raw|];
    assert m.raw[..2] == data[s.offset + 4..s.offset + 6];
  }

  lemma {:induction false} RegsSteps(a: Attributes, m: Sample, data: seq<u8>, s: State)
    requires Fits(data, a, m) && REGS_USER in a.sampleType
    requires PartAt(data, s.offset, PartOf(REGS_USER, m).Bytes())
    ensures Judged(REGS_USER, a, m, data, s)
  {
    PartsAt(REGS_USER, m, data, s.offset);
    if m.abi == 0 {
      NoRegsStep(a, m, data, s);
    } else if m.abi == 1 {
      NarrowRegsMiss(a, m, data, s);
    } else {
      WideRegsStep(a, m, data, s);
    }
  }

  lemma {:induction false} NoRegsStep(a: Attributes, m: Sample, data: seq<u8>, s: State)
    requires |data| < TWO_16 && REGS_USER in a.sampleType && m.abi == 0 && m.regs == []
    requires PartAt(data, s.offset, Word(0))
    ensures Judged(REGS_USER, a, m, data, s)
  {
    NoRegsReads(a, data, s);
  }

  lemma {:induction false} WideRegsStep(a: Attributes, m: Sample, data: seq<u8>, s: State)
    requires |data| < TWO_16 && REGS_USER in a.sampleType && m.abi == 2 && |m.regs| == a.regsUserCount
    requires PartAt(data, s.offset, Word(2)) && s.offset + 8 + 8 * a.regsUserCount <= |data|
    ensures Judged(REGS_USER, a, m, data, s)
  {
    RegsReads(a, data, s, 2, 8 * a.regsUserCount);
  }

  /** The kernel writes 32-bit registers as words too. */
  lemma {:induction false} NarrowRegsMiss(a: Attributes, m: Sample, data: seq<u8>, s: State)
    requires |data| < TWO_16 && REGS_USER in a.sampleType && m.abi == 1 && |m.regs| == a.regsUserCount
    requires PartAt(data, s.offset, Word(1)) && s.offset + 8 + 8 * a.regsUserCount <= |data|
    ensures Judged(REGS_USER, a, m, data, s)
  {
    RegsReads(a, data, s, 1, 4 * a.regsUserCount);
    SmallField(s.offset + 8, 4 * a.regsUserCount);
    SmallField(s.offset + 8, 8 * a.regsUserCount);
  }

  lemma {:induction false} NoRegsReads(a: Attributes, data: seq<u8>, s: State)
    requires PartAt(data, s.offset, Word(0)) && s.offset + 8 < TWO_16
    ensures RegsSection(a, s, data) == Ok(State(s.offset + 8, s.fields[REGS_USER := FieldAt(s.offset + 8, 0)], s.event))
  {
    ReadsWord(data, s.offset, 0);
    SmallUpdate(s.(offset := s.offset + 8), REGS_USER, 0);
  }

  lemma {:induction false} StackSteps(a: Attributes, m: Sample, data: seq<u8>, s: State)
    requires Fits(data, a, m) && STACK_USER in a.sampleType
    requires PartAt(data, s.offset, PartOf(STACK_USER, m).Bytes())
    ensures Judged(STACK_USER, a, m, data, s)
  {
    PartsAt(STACK_USER, m, data, s.offset);
    if m.stack == [] {
      NoStackStep(a, m, data, s);
    } else {
      PartSplits(data, s.offset + 8 + m.stackRead, m.stack[m.stackRead..], Word(m.stackRead));
      StackStep(a, m, data, s);
    }
  }

  lemma {:induction false} NoStackStep(a: Attributes, m: Sample, data: seq<u8>, s: State)
    requires |data| < TWO_16 && STACK_USER in a.sampleType && m.stack == [] && PartAt(data, s.offset, Word(0))
    ensures Judged(STACK_USER, a, m, data, s)
  {
    NoStackReads(data, s);
  }

  lemma {:induction false} StackStep(a: Attributes, m: Sample, data: seq<u8>, s: State)
    requires |data| < TWO_16 && STACK_USER in a.sampleType && m.stack != [] && m.stackRead <= |m.stack|
    requires PartAt(data, s.offset, Word(Size64(|m.stack|)))
    requires PartAt(data, s.offset + 8 + |m.stack|, Word(m.stackRead))
    ensures Judged(STACK_USER, a, m, data, s)
  {
    StackReads(data, s, |m.stack|, m.stackRead, s.offset + 8, s.offset + 8 + |m.stack|);
  }

  lemma {:induction false} WordSteps(kind: Kind, a: Attributes, m: Sample, data: seq<u8>, s: State)
    requires kind in a.sampleType && IsWord(kind)
    requires s.offset + |PartOf(kind, m).Bytes()| <= |data| < TWO_16
    ensures Judged(kind, a, m, data, s)
  {
    SmallUpdate(s, NameOf(kind), 8);
  }

  lemma {:induction false} TidSteps(a: Attributes, m: Sample, data: seq<u8>, s: State)
    requires TID in a.sampleType
    requires s.offset + |PartOf(TID, m).Bytes()| <= |data| < TWO_16
    ensures Judged(TID, a, m, data, s)
  {
    SmallUpdate(s, PID_FIELD, 4);
    SmallUpdate(Update(s, PID_FIELD, 4), TID, 4);
  }

  lemma {:induction false} ReadSteps(a: Attributes, m: Sample, data: seq<u8>, s: State)
    requires READ in a.sampleType
    requires s.offset + |PartOf(READ, m).Bytes()| <= |data| < TWO_16
    ensures Judged(READ, a, m, data, s)
  {
    FormatSizeIs(a.readFormat);
    SmallField(s.offset, |m.read|);
    SmallField(s.offset, ReadFormatSize(a.readFormat));
  }

  lemma {:induction false} SmallField(start: nat, len: nat)
    requires start + len < TWO_32
    ensures FieldAt(start, len) == DataField(start, start + len)
  {
  }

  lemma {:induction false} CgroupSteps(a: Attributes, m: Sample, data: seq<u8>, s: State)
    requires Fits(data, a, m) && CGROUP in a.sampleType
    requires s.offset + |PartOf(CGROUP, m).Bytes()| <= |data| < TWO_16
    ensures Judged(CGROUP, a, m, data, s)
  {
    SmallField(s.offset + |m.between|, 8);
  }

  lemma {:induction false} SectionSteps(kind: Kind, a: Attributes, m: Sample, data: seq<u8>, s: State)
    requires Fits(data, a, m) && PartAt(data, s.offset, Section(kind, a, m)) && Parsed(kind)
    ensures Judged(kind, a, m, data, s)
  {
    if kind in a.sampleType {
      if kind == CALLCHAIN || kind == BRANCH_STACK {
        CountedSteps(kind, a, m, data, s);
      } else if kind == RAW {
        RawSteps(a, m, data, s);
      } else if kind == REGS_USER {
        RegsSteps(a, m, data, s);
      } else if kind == STACK_USER {
        StackSteps(a, m, data, s);
      } else if kind == TID {
        TidSteps(a, m, data, s);
      } else if kind == READ {
        ReadSteps(a, m, data, s);
      } else if kind == CGROUP {
        CgroupSteps(a, m, data, s);
      } else {
        WordSteps(kind, a, m, data, s);
      }
    }
  }
}
