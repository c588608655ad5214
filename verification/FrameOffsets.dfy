/** Loading the frame rules of one FDE from an ELF image, and replaying them for an address. */
module FrameOffsets {
  import opened MachineInt
  import opened Outcome
  import opened Leb128
  import opened CallFrame
  import opened FrameRules

  /** read_frame_entry over a file image: the entry at `pos` with its length word. */
  function FrameEntryAt(file: seq<u8>, pos: int): Result<seq<u8>> {
    if pos < 0 || pos + 4 > |file| then Err(Rejected)
    else
      var len := Le32(file[pos..pos + 4]);
      if len == 0 || len > 2048 || pos + 4 + len > |file| then Err(Rejected)
      else Ok(file[pos..pos + 4 + len])
  }

  /** Offset of the first NUL at or after `pos`. */
  function StringEnd(s: seq<u8>, pos: nat): (r: Result<nat>)
    ensures r.Ok? ==> pos <= r.value < |s|
    decreases |s| - pos
  {
    if pos >= |s| then Err(OutOfBounds) else if s[pos] == 0 then Ok(pos) else StringEnd(s, pos + 1)
  }

  function ToI16(v: int): i16 { if v % TWO_16 < 0x8000 then v % TWO_16 else v % TWO_16 - TWO_16 }

  /** The letters after 'z' in an augmentation string, each consuming its part of the augmentation data. */
  function AugmentationAt(aug: seq<u8>, s: seq<u8>, pos: nat, enc: u8): Result<(u8, nat)> {
    if aug == [] then Ok((enc, pos))
    else
      match aug[0]
      case 76 => // 'L'
        var (_, next) :- ReadByteAt(s, pos);
        AugmentationAt(aug[1..], s, next, enc)
      case 80 => // 'P'
        var (personality, p) :- ReadByteAt(s, pos);
        var (_, next) :- ReadValueAt(personality, 0, s, p);
        AugmentationAt(aug[1..], s, next, enc)
      case 82 => // 'R'
        var (e, next) :- ReadByteAt(s, pos);
        AugmentationAt(aug[1..], s, next, e)
      case _ => AugmentationAt(aug[1..], s, pos, enc)
  }

  /** The augmentation data: its size, then one item per letter. */
  function AugmentationDataAt(aug: seq<u8>, s: seq<u8>, pos: nat): Result<(u8, nat)> {
    var (_, data) :- ReadUlebAt(s, pos);
    AugmentationAt(aug, s, data, DEFAULT_ENCODING)
  }

  /** What parse_cie takes from a common information entry. */
  datatype Cie = Cie(options: Options, retReg: u8, start: nat)

  const DEFAULT_ENCODING: u8 := 0x04

  function FactorsAt(s: seq<u8>, pos: nat): Result<(int, int, int, nat)> {
    var (codeAlign, p) :- ReadUlebAt(s, pos);
    var (dataAlign, q) :- ReadSlebAt(s, p);
    var (retReg, next) :- ReadUlebAt(s, q);
    if codeAlign > 0x7FFF || dataAlign > 0x7FFF || dataAlign < -0x8000 || retReg > 255 then Err(Rejected)
    else Ok((codeAlign, dataAlign, retReg, next))
  }

  /** A CIE from its alignment factors on, given its augmentation string. */
  function CieBodyAt(aug: seq<u8>, entry: seq<u8>, pos: nat): Result<Cie> {
    var (codeAlign, dataAlign, retReg, q) :- FactorsAt(entry, pos);
    if aug == [] then Err(OutOfBounds)
    else if aug[0] != 122 then // 'z'
      Ok(Cie(Options(DEFAULT_ENCODING, ToI16(codeAlign), dataAlign, false), retReg % 256, q))
    else
      var (enc, start) :- AugmentationDataAt(aug, entry, q);
      Ok(Cie(Options(enc, ToI16(codeAlign), dataAlign, true), retReg % 256, start))
  }

  /** The augmentation string of an entry that is a CIE, and where it goes on behind it. */
  function CieHeadAt(entry: seq<u8>): Result<(seq<u8>, nat)> {
    if |entry| < 8 || Le32(entry[4..8]) != 0 then Err(Rejected)
    else
      var (version, p) :- ReadByteAt(entry, 8);
      if version != 1 then Err(Rejected)
      else
        var end :- StringEnd(entry, p);
        Ok((entry[p..end], end + 1))
  }

  function CieAt(entry: seq<u8>): Result<Cie> {
    var (aug, start) :- CieHeadAt(entry);
    CieBodyAt(aug, entry, start)
  }

  /** Runs the initial instructions; a location they reach is ignored. */
  function RunInitialAt(s: seq<u8>, pos: nat, st: State, o: Options): Result<State>
    decreases |s| - pos
  {
    if pos >= |s| then Ok(st)
    else
      var (st', _, next) :- StepAt(s, pos, st, o);
      assert next > pos;
      RunInitialAt(s, next, st', o)
  }

  /** The frame opened when a location is reached: its rva, the CFA rule in force, no register rules yet. */
  function Reopen(st: State): State {
    st.(frame := FrameState(ToU64(st.pc), st.frame.cfa, []))
  }

  function RowsAt(s: seq<u8>, pos: nat, st: State, o: Options): (r: Result<seq<FrameState>>)
    decreases |s| - pos
  {
    if pos >= |s| then Ok([st.frame])
    else
      var (st', reached, next) :- StepAt(s, pos, st, o);
      assert next > pos;
      if reached then
        var rest :- RowsAt(s, next, Reopen(st'), o);
        Ok([st'.frame] + rest)
      else RowsAt(s, next, st', o)
  }

  function Appended(rows: seq<FrameState>, r: Result<seq<FrameState>>): Result<seq<FrameState>> {
    var more :- r;
    Ok(rows + more)
  }

  lemma {:induction false} RowsStep(rows: seq<FrameState>, s: seq<u8>, pos: nat, st: State, o: Options, st': State,
                                    reached: bool, next: nat)
    requires pos < |s| && StepAt(s, pos, st, o) == Ok((st', reached, next))
    ensures Appended(rows, RowsAt(s, pos, st, o))
         == if reached then Appended(rows + [st'.frame], RowsAt(s, next, Reopen(st'), o))
            else Appended(rows, RowsAt(s, next, st', o))
  {
    if reached && RowsAt(s, next, Reopen(st'), o).Ok? {
      var rest := RowsAt(s, next, Reopen(st'), o).value;
      assert rows + ([st'.frame] + rest) == (rows + [st'.frame]) + rest;
    }
  }

  function Start(pc: i64): State {
    State(pc, FrameState(ToU64(pc), CfaState(0, 0), []), [])
  }

  /** The header of an FDE: first address, size, and where its instructions start. */
  function FdeHeaderAt(fde: seq<u8>, pos: int, o: Options): Result<(i64, i64, nat)> {
    var (pcStart, p) :- ReadValueAt(o.enc, ToI64(pos), fde, 8);
    var (pcSize, q) :- ReadValueAt(o.enc, -12, fde, p);
    if !o.hasAugData then Ok((pcStart, pcSize, q))
    else
      var (size, data) :- ReadUlebAt(fde, q);
      if size < 0 then Err(OutOfBounds) else Ok((pcStart, pcSize, data + size))
  }

  /** The two entries load_rules works on: the FDE at `pos` and the CIE it points back to. */
  function EntriesAt(file: seq<u8>, pos: nat): Result<(seq<u8>, seq<u8>)> {
    var fde :- FrameEntryAt(file, pos);
    if |fde| < 8 then Err(Rejected)
    else
      var back := Le32(fde[4..8]);
      if back == 0 then Err(Rejected)
      else
        var cie :- FrameEntryAt(file, pos + 4 - back);
        Ok((fde, cie))
  }

  /** The fields load_rules fills. */
  datatype Loaded = Loaded(pcSize: u64, retReg: u8, rows: seq<FrameState>)

  function RowsOfEntry(fde: seq<u8>, pos: nat, entry: seq<u8>, c: Cie): Result<Loaded> {
    var (pcStart, pcSize, start) :- FdeHeaderAt(fde, pos, c.options);
    var st :- RunInitialAt(entry, c.start, Start(pcStart), c.options);
    var rows :- RowsAt(fde, start, st.(pc := pcStart), c.options);
    Ok(Loaded(ToU64(pcSize), c.retReg, rows))
  }

  /** The outcome of load_rules for the FDE at `pos` of a file image. */
  function LoadAt(file: seq<u8>, pos: nat): Result<Loaded> {
    var (fde, entry) :- EntriesAt(file, pos);
    var c :- CieAt(entry);
    RowsOfEntry(fde, pos, entry, c)
  }

  method ReadFrameEntry(file: seq<u8>, pos: int) returns (r: Result<seq<u8>>)
    ensures r == FrameEntryAt(file, pos)
  {
    if pos < 0 || pos + 4 > |file| {
      return Err(Rejected);
    }
    var len := Le32(file[pos..pos + 4]);
    if len == 0 || len > 2048 {
      return Err(Rejected);
    }
    if pos + 4 + len > |file| {
      return Err(Rejected);
    }
    return Ok(file[pos..pos + 4 + len]);
  }

  method ReadString(slice: seq<u8>, cursor: nat) returns (r: Result<nat>)
    ensures r == StringEnd(slice, cursor)
  {
    var pos := cursor;
    while pos < |slice| && slice[pos] != 0
      invariant cursor <= pos && StringEnd(slice, cursor) == StringEnd(slice, pos)
    {
      pos := pos + 1;
    }
    if pos >= |slice| {
      return Err(OutOfBounds);
    }
    return Ok(pos);
  }

  method ReadAugmentation(aug: seq<u8>, entry: seq<u8>, cursor: nat) returns (r: Result<u8>, next: nat)
    ensures match AugmentationDataAt(aug, entry, cursor)
      case Err(e) => r == Err(e)
      case Ok((enc, end)) => r == Ok(enc) && next == end
  {
    var enc := DEFAULT_ENCODING;
    next := cursor;
    var _, data :- ReadUleb(entry, cursor);
    next := data;
    var i := 0;
    while i < |aug|
      invariant i <= |aug|
      invariant AugmentationAt(aug, entry, data, DEFAULT_ENCODING) == AugmentationAt(aug[i..], entry, next, enc)
    {
      assert aug[i..][1..] == aug[i + 1..];
      match aug[i] {
        case 76 =>
          var _, p :- ReadByte(entry, next);
          next := p;
        case 80 =>
          var personality, p :- ReadByte(entry, next);
          var _, q :- ReadValue(personality, 0, entry, p);
          next := q;
        case 82 =>
          enc, next :- ReadByte(entry, next);
        case _ =>
      }
      i := i + 1;
    }
    return Ok(enc), next;
  }

  method ReadFactors(entry: seq<u8>, cursor: nat) returns (r: Result<int>, dataAlign: int, retReg: int, next: nat)
    ensures match FactorsAt(entry, cursor)
      case Err(e) => r == Err(e)
      case Ok((c, d, ret, end)) => r == Ok(c) && dataAlign == d && retReg == ret && next == end
  {
    dataAlign, retReg, next := 0, 0, cursor;
    var codeAlign;
    codeAlign, next :- ReadUleb(entry, next);
    dataAlign, next :- ReadSleb(entry, next);
    retReg, next :- ReadUleb(entry, next);
    if codeAlign > 0x7FFF || dataAlign > 0x7FFF || dataAlign < -0x8000 || retReg > 255 {
      return Err(Rejected), dataAlign, retReg, next;
    }
    return Ok(codeAlign), dataAlign, retReg, next;
  }

  method ParseCieBody(aug: seq<u8>, entry: seq<u8>, start: nat) returns (r: Result<Cie>)
    ensures r == CieBodyAt(aug, entry, start)
  {
    var codeAlign, dataAlign, retReg, cursor :- ReadFactors(entry, start);
    var enc, hasAugData := DEFAULT_ENCODING, false;
    if aug == [] {
      return Err(OutOfBounds);
    }
    if aug[0] == 122 {
      enc, cursor :- ReadAugmentation(aug, entry, cursor);
      hasAugData := true;
    }
    return Ok(Cie(Options(enc, ToI16(codeAlign), dataAlign, hasAugData), retReg % 256, cursor));
  }

  method ReadCieHead(entry: seq<u8>) returns (r: Result<seq<u8>>, next: nat)
    ensures match CieHeadAt(entry)
      case Err(e) => r == Err(e)
      case Ok((aug, start)) => r == Ok(aug) && next == start
  {
    next := 0;
    if |entry| < 8 {
      return Err(Rejected), next;
    }
    var cieId := Le32(entry[4..8]);
    if cieId != 0 {
      return Err(Rejected), next;
    }
    var version, p :- ReadByte(entry, 8);
    if version != 1 {
      return Err(Rejected), next;
    }
    var end :- ReadString(entry, p);
    return Ok(entry[p..end]), end + 1;
  }

  method ParseCie(entry: seq<u8>) returns (r: Result<Cie>)
    ensures r == CieAt(entry)
  {
    var aug, start :- ReadCieHead(entry);
    r := ParseCieBody(aug, entry, start);
  }

  datatype ParseState = Unparsed | Invalid | Valid

  /** What one replay yields: the CFA rule, and the registers whose mask bit is set. */
  datatype UnwindCfa = UnwindCfa(reg: u8, off: i16, offMask: set<nat>)

  /** Specification of the replay: the CFA rule in force and the offsets of the registers that have one. */
  datatype Unwound = Unwound(cfa: CfaState, offsets: map<nat, int>)

  function ReplayReg(m: map<nat, int>, r: RegState, maxReg: nat): map<nat, int> {
    if r.reg >= maxReg then m
    else if r.valType == IsUndefined then m - {r.reg as nat}
    else if r.valType == AtOffset then m[r.reg as nat := r.val]
    else m
  }

  function ReplayRegs(m: map<nat, int>, regs: seq<RegState>, maxReg: nat): map<nat, int> {
    if regs == [] then m
    else ReplayReg(ReplayRegs(m, regs[..|regs| - 1], maxReg), regs[|regs| - 1], maxReg)
  }

  /** Replays the states up to the first that starts after `rva`. */
  function Replay(u: Unwound, states: seq<FrameState>, rva: u64, maxReg: nat): Unwound
    decreases states
  {
    if states == [] || states[0].rva > rva then u
    else Replay(Unwound(states[0].cfa, ReplayRegs(u.offsets, states[0].regs, maxReg)), states[1..], rva, maxReg)
  }

  const NOTHING := Unwound(CfaState(0, 0), map[])

  /** What the replay keeps instead: bits of a 64-bit mask and the caller's array. */
  datatype Scratch = Scratch(cfa: CfaState, mask: set<nat>, values: seq<i16>)

  /** The array's length as a byte bounds the registers; the shift of a mask bit is taken modulo 64. */
  function StoreReg(s: Scratch, r: RegState): (t: Scratch)
    ensures |t.values| == |s.values|
  {
    if r.reg >= |s.values| % 256 then s
    else if r.valType == IsUndefined then s.(mask := s.mask - {r.reg % 64})
    else if r.valType == AtOffset then s.(mask := s.mask + {r.reg % 64}, values := s.values[r.reg := r.val])
    else s
  }

  function StoreRegs(s: Scratch, regs: seq<RegState>): (t: Scratch)
    ensures |t.values| == |s.values|
  {
    if regs == [] then s else StoreReg(StoreRegs(s, regs[..|regs| - 1]), regs[|regs| - 1])
  }

  function Store(s: Scratch, states: seq<FrameState>, rva: u64): (t: Scratch)
    ensures |t.values| == |s.values|
    decreases states
  {
    if states == [] || states[0].rva > rva then s
    else Store(StoreRegs(s.(cfa := states[0].cfa), states[0].regs), states[1..], rva)
  }

  /** The masked entries of the array are the replayed offsets. */
  predicate Holds(s: Scratch, u: Unwound) {
    s.cfa == u.cfa && s.mask == u.offsets.Keys
    && forall r :: r in u.offsets ==> r < |s.values| && s.values[r] == u.offsets[r]
  }

  lemma {:induction false} StoredRegs(s: Scratch, u: Unwound, regs: seq<RegState>)
    requires Holds(s, u) && |s.values| <= 64
    ensures Holds(StoreRegs(s, regs), Unwound(u.cfa, ReplayRegs(u.offsets, regs, |s.values|)))
  {
    if regs != [] {
      StoredRegs(s, u, regs[..|regs| - 1]);
    }
  }

  /** With at most 64 registers no two of them share a bit. */
  lemma {:induction false} StoredIsReplayed(s: Scratch, u: Unwound, states: seq<FrameState>, rva: u64)
    requires Holds(s, u) && |s.values| <= 64
    ensures Holds(Store(s, states, rva), Replay(u, states, rva, |s.values|))
    decreases states
  {
    if states != [] && states[0].rva <= rva {
      var at := s.(cfa := states[0].cfa);
      StoredRegs(at, Unwound(states[0].cfa, u.offsets), states[0].regs);
      StoredIsReplayed(StoreRegs(at, states[0].regs),
                       Unwound(states[0].cfa, ReplayRegs(u.offsets, states[0].regs, |s.values|)), states[1..], rva);
    }
  }

  /** A row with the one rule that no longer array gets right: register 64 has no bit of its own. */
  const REGISTER_64 := [FrameState(0, CfaState(0, 0), [RegState(64, AtOffset, 0)])]

  /** Its bit is that of register 0, or it is not stored because the length as a byte is too small for it. */
  lemma {:induction false} Register64IsLost(values: seq<i16>, rva: u64)
    requires |values| > 64
    ensures Store(Scratch(NOTHING.cfa, {}, values), REGISTER_64, rva).mask == (if |values| % 256 > 64 then {0} else {})
    ensures Replay(NOTHING, REGISTER_64, rva, |values|).offsets.Keys == {64}
  {
    var r := RegState(64, AtOffset, 0);
    assert [r][..0] == [] && REGISTER_64[1..] == [];
    var s := Scratch(CfaState(0, 0), {}, values);
    assert StoreRegs(s, [r]) == StoreReg(s, r);
    assert ReplayRegs(map[], [r], |values|) == map[64 := 0];
  }

  /** The mask and the array hold the replayed offsets, whatever the states, exactly up to 64 registers. */
  lemma {:induction false} StoredIsReplayedIff(values: seq<i16>)
    ensures |values| <= 64
       <==> forall states, rva :: Holds(Store(Scratch(NOTHING.cfa, {}, values), states, rva),
                                        Replay(NOTHING, states, rva, |values|))
  {
    var start := Scratch(NOTHING.cfa, {}, values);
    if |values| <= 64 {
      forall states, rva
        ensures Holds(Store(start, states, rva), Replay(NOTHING, states, rva, |values|))
      {
        StoredIsReplayed(start, NOTHING, states, rva);
      }
    } else {
      Register64IsLost(values, 0);
      assert 64 !in Store(start, REGISTER_64, 0).mask;
      assert !Holds(Store(start, REGISTER_64, 0), Replay(NOTHING, REGISTER_64, 0, |values|));
    }
  }

  /** With 65, registers 0 and 64 share one, and undoing the rule of one takes away that of the other. */
  lemma {:induction false} SharedBit(values: seq<i16>, rva: u64)
    requires |values| == 65
    ensures var states := [FrameState(0, CfaState(7, 8), [RegState(0, AtOffset, -8), RegState(64, IsUndefined, 0)])];
      Store(Scratch(NOTHING.cfa, {}, values), states, rva).mask == {}
      && Replay(NOTHING, states, rva, 65).offsets.Keys == {0}
  {
    var (first, second) := (RegState(0, AtOffset, -8), RegState(64, IsUndefined, 0));
    var regs := [first, second];
    assert regs[..1] == [first] && [first][..0] == [];
    var s := Scratch(CfaState(7, 8), {}, values);
    assert StoreRegs(s, [first]) == StoreReg(s, first) && StoreRegs(s, regs) == StoreReg(StoreReg(s, first), second);
    var m: map<nat, int> := map[];
    assert ReplayRegs(m, [first], 65) == map[0 := -8];
    assert ReplayRegs(m, regs, 65) == map[0 := -8];
    assert [FrameState(0, CfaState(7, 8), regs)][1..] == [];
  }

  class FrameOffset {
    const rva: u64
    const fde: nat
    var pcSize: u64
    var state: ParseState
    var retReg: u8
    var frameStates: seq<FrameState>

    constructor (rva: u64, fde: nat)
      ensures this.rva == rva && this.fde == fde && pcSize == 0 && state == Unparsed && frameStates == []
    {
      this.rva, this.fde := rva, fde;
      pcSize, state, retReg, frameStates := 0, Unparsed, 0, [];
    }

    /** load_rules: appends exactly the specified rows, or leaves the entry marked invalid. */
    method LoadRules(file: seq<u8>) returns (r: Result<()>)
      modifies this
      ensures match LoadAt(file, fde)
        case Err(e) => r == Err(e) && state == Invalid
        case Ok(loaded) =>
          r == Ok(()) && state == Valid && frameStates == old(frameStates) + loaded.rows
          && pcSize == loaded.pcSize && retReg == loaded.retReg
    {
      state := Invalid;
      var fdeSlice :- ReadFrameEntry(file, fde);
      if |fdeSlice| < 8 {
        return Err(Rejected);
      }
      var back := Le32(fdeSlice[4..8]);
      if back == 0 {
        return Err(Rejected);
      }
      var cieSlice :- ReadFrameEntry(file, fde + 4 - back);
      var cie :- ParseCie(cieSlice);
      r := ReadRows(fdeSlice, cieSlice, cie);
    }

    method ReadRows(fdeSlice: seq<u8>, cieSlice: seq<u8>, cie: Cie) returns (r: Result<()>)
      requires state == Invalid
      modifies this
      ensures match RowsOfEntry(fdeSlice, fde, cieSlice, cie)
        case Err(e) => r == Err(e) && state == Invalid
        case Ok(loaded) =>
          r == Ok(()) && state == Valid && frameStates == old(frameStates) + loaded.rows
          && pcSize == loaded.pcSize && retReg == loaded.retReg
    {
      retReg := cie.retReg;
      var o := cie.options;
      var pcStart: i64, cursor: nat :- ReadValue(o.enc, ToI64(fde), fdeSlice, 8);
      var size: i64;
      size, cursor :- ReadValue(o.enc, -12, fdeSlice, cursor);
      pcSize := ToU64(size);
      ghost var size0 := size;
      if o.hasAugData {
        size, cursor :- ReadUleb(fdeSlice, cursor);
        if size < 0 {
          return Err(OutOfBounds);
        }
        cursor := cursor + size;
      }
      assert FdeHeaderAt(fdeSlice, fde, o).Ok? && FdeHeaderAt(fdeSlice, fde, o).value.0 == pcStart
          && FdeHeaderAt(fdeSlice, fde, o).value.1 == size0 && FdeHeaderAt(fdeSlice, fde, o).value.2 == cursor;
      var reader := new RuleReader(pcStart, Start(pcStart).frame);
      var _ :- ReadInitialRules(reader, cieSlice, cie);
      reader.pc := pcStart;
      reader.cursor := cursor;
      r := ReadFdeRules(reader, fdeSlice, o);
    }

    /** The CIE loop: any advance flag is dropped. */
    method ReadInitialRules(reader: RuleReader, cieSlice: seq<u8>, cie: Cie) returns (r: Result<()>)
      modifies reader
      ensures match RunInitialAt(cieSlice, cie.start, old(reader.Current()), cie.options)
        case Err(e) => r == Err(e)
        case Ok(st) => r == Ok(()) && reader.Current() == st
    {
      reader.cursor := cie.start;
      while reader.cursor < |cieSlice|
        invariant RunInitialAt(cieSlice, cie.start, old(reader.Current()), cie.options)
               == RunInitialAt(cieSlice, reader.cursor, reader.Current(), cie.options)
        decreases |cieSlice| - reader.cursor
      {
        var _ :- reader.ReadRule(cieSlice, cie.options);
      }
      return Ok(());
    }

    /** The FDE loop: a reached location closes the open frame and opens the next. */
    method ReadFdeRules(reader: RuleReader, fdeSlice: seq<u8>, o: Options) returns (r: Result<()>)
      requires state == Invalid
      modifies this`state, this`frameStates, reader
      ensures match Appended(old(frameStates), RowsAt(fdeSlice, old(reader.cursor), old(reader.Current()), o))
        case Err(e) => r == Err(e) && state == Invalid
        case Ok(rows) => r == Ok(()) && state == Valid && frameStates == rows
    {
      ghost var spec := Appended(frameStates, RowsAt(fdeSlice, reader.cursor, reader.Current(), o));
      while reader.cursor < |fdeSlice|
        invariant state == Invalid
        invariant spec == Appended(frameStates, RowsAt(fdeSlice, reader.cursor, reader.Current(), o))
        decreases |fdeSlice| - reader.cursor
      {
        ghost var pos, st := reader.cursor, reader.Current();
        var reached :- reader.ReadRule(fdeSlice, o);
        RowsStep(frameStates, fdeSlice, pos, st, o, reader.Current(), reached, reader.cursor);
        if reached {
          frameStates := frameStates + [reader.frame];
          reader.frame := FrameState(ToU64(reader.pc), reader.frame.cfa, []);
        }
      }
      frameStates := frameStates + [reader.frame];
      state := Valid;
      return Ok(());
    }

    /** unwind_to_cfa: the masked registers hold their replayed offsets in the caller's array. */
    method UnwindToCfa(regOffsets: array<i16>, rva: u64) returns (u: UnwindCfa)
      modifies regOffsets
      ensures Scratch(CfaState(u.reg, u.off), u.offMask, regOffsets[..])
           == Store(Scratch(NOTHING.cfa, {}, old(regOffsets[..])), frameStates, rva)
      ensures regOffsets.Length <= 64 ==>
                Holds(Scratch(CfaState(u.reg, u.off), u.offMask, regOffsets[..]),
                      Replay(NOTHING, frameStates, rva, regOffsets.Length))
    {
      u := UnwindCfa(0, 0, {});
      var maxReg := regOffsets.Length % 256;
      ghost var start := Scratch(NOTHING.cfa, {}, regOffsets[..]);
      var i := 0;
      while i < |frameStates|
        invariant i <= |frameStates|
        invariant Store(start, frameStates, rva)
               == Store(Scratch(CfaState(u.reg, u.off), u.offMask, regOffsets[..]), frameStates[i..], rva)
      {
        var st := frameStates[i];
        if st.rva > rva {
          break;
        }
        u := u.(reg := st.cfa.reg, off := st.cfa.off);
        ghost var open := Scratch(st.cfa, u.offMask, regOffsets[..]);
        var j := 0;
        while j < |st.regs|
          invariant j <= |st.regs|
          invariant Scratch(CfaState(u.reg, u.off), u.offMask, regOffsets[..]) == StoreRegs(open, st.regs[..j])
        {
          var reg := st.regs[j];
          assert st.regs[..j + 1][..j] == st.regs[..j];
          j := j + 1;
          if reg.reg >= maxReg {
            continue;
          }
          if reg.valType == IsUndefined {
            u := u.(offMask := u.offMask - {reg.reg % 64});
            continue;
          }
          if reg.valType != AtOffset {
            continue;
          }
          regOffsets[reg.reg] := reg.val;
          u := u.(offMask := u.offMask + {reg.reg % 64});
        }
        assert st.regs[..j] == st.regs;
        assert frameStates[i..][1..] == frameStates[i + 1..];
        i := i + 1;
      }
      if regOffsets.Length <= 64 {
        StoredIsReplayed(start, NOTHING, frameStates, rva);
      }
    }
  }
}
