/** Whole entries of the frame section as a producer writes them, and that loading them records what they mean. */
module CallFrameEntries {
  import opened MachineInt
  import opened Bytes
  import opened Outcome
  import opened Leb128
  import opened CallFrame
  import opened FrameRules
  import opened FrameOffsets
  import opened CallFrameTable
  import opened Pointers
  import opened CallFrameCode
  import opened CallFrameReplay
  import opened CallFrameRegisters
  import opened CallFrameAcceptance

  type NonZero = b: u8 | b != 0 witness 1

  /** What a letter of the augmentation string announces. */
  datatype Item =
    | PointerItem(enc: u8)
    | LanguageItem(enc: u8)
    | PersonalityItem(enc: u8, routine: i64)
    | OtherItem(letter: NonZero)

  /** An augmentation string with the items it announces, or one that announces none. */
  datatype Augmentation = Items(items: seq<Item>) | Bare(letters: seq<NonZero>)

  /** A common information entry: its id and version, alignment factors, return register, and initial instructions. */
  datatype Common = Common(id: u32, version: u8, codeAlign: u64, dataAlign: i64, retReg: u64, aug: Augmentation,
                           ops: seq<Op>)

  /** A frame description entry: the code it is for, its augmentation data and its instructions. */
  datatype Description = Description(pcStart: u64, size: i64, augmentation: seq<u8>, ops: seq<Op>)

  function Letter(item: Item): NonZero {
    match item
    case PointerItem(_) => 82
    case LanguageItem(_) => 76
    case PersonalityItem(_, _) => 80
    case OtherItem(letter) => letter
  }

  function ItemBytes(item: Item, leb: Leb): seq<u8> {
    match item
    case PointerItem(enc) => [enc]
    case LanguageItem(enc) => [enc]
    case PersonalityItem(enc, routine) => [enc] + EncodePointer(enc, routine, leb)
    case OtherItem(_) => []
  }

  function Letters(items: seq<Item>): (s: seq<NonZero>) {
    if items == [] then [] else [Letter(items[0])] + Letters(items[1..])
  }

  function ItemsBytes(items: seq<Item>, leb: Leb): seq<u8> {
    if items == [] then [] else ItemBytes(items[0], leb) + ItemsBytes(items[1..], leb)
  }

  /** The encoding of addresses the last item of its kind asks for. */
  function EncodingAfter(items: seq<Item>, enc: u8): u8 {
    if items == [] then enc
    else EncodingAfter(items[1..], if items[0].PointerItem? then items[0].enc else enc)
  }

  function EncodingOf(c: Common): u8 {
    if c.aug.Items? then EncodingAfter(c.aug.items, DEFAULT_ENCODING) else DEFAULT_ENCODING
  }

  const Z: NonZero := 122

  function StringOf(aug: Augmentation): seq<NonZero> {
    if aug.Items? then [Z] + Letters(aug.items) else aug.letters
  }

  /** The length word in front of an entry. */
  function Framed(body: seq<u8>): seq<u8> { Low(|body|, 4) + body }

  /** Data with its length in front. */
  function Counted(data: seq<u8>, leb: Leb, rest: seq<u8>): seq<u8> { leb.uleb(|data| % TWO_64) + (data + rest) }

  function CodeOf(c: Common, leb: Leb): seq<u8> { EncodeOps(c.ops, leb, EncodingOf(c)) }

  function CommonData(c: Common, leb: Leb): seq<u8> {
    if c.aug.Items? then Counted(ItemsBytes(c.aug.items, leb), leb, CodeOf(c, leb)) else CodeOf(c, leb)
  }

  function FactorBytes(c: Common, leb: Leb, rest: seq<u8>): seq<u8> {
    leb.uleb(c.codeAlign) + (leb.sleb(c.dataAlign) + (leb.uleb(c.retReg) + rest))
  }

  function CommonBody(id: u32, version: u8, aug: seq<u8>, fields: seq<u8>): seq<u8> {
    Low(id, 4) + ([version] + (aug + ([0] + fields)))
  }

  function EncodeCommon(c: Common, leb: Leb): seq<u8> {
    Framed(CommonBody(c.id, c.version, StringOf(c.aug), FactorBytes(c, leb, CommonData(c, leb))))
  }

  /** The address of the code as it is written in an entry at `base`, or for data at `base`. */
  function RawStart(enc: u8, pcStart: u64, base: int): i64 {
    ToI64(if SelfRelative(enc) then pcStart - (base + 8) else if DataRelative(enc) then pcStart - base else pcStart)
  }

  function DescriptionData(c: Common, d: Description, leb: Leb): seq<u8> {
    var code := EncodeOps(d.ops, leb, EncodingOf(c));
    if c.aug.Items? then Counted(d.augmentation, leb, code) else code
  }

  function StartBytes(d: Description, leb: Leb, enc: u8, base: int): seq<u8> {
    EncodePointer(enc, RawStart(enc, d.pcStart, base), leb)
  }

  function StartAndSize(d: Description, leb: Leb, enc: u8, base: int, data: seq<u8>): seq<u8> {
    StartBytes(d, leb, enc, base) + (EncodePointer(enc, d.size, leb) + data)
  }

  function DescriptionBody(back: nat, rest: seq<u8>): seq<u8> { Low(back, 4) + rest }

  /** The entry points back to its CIE from its second word. */
  function EncodeDescription(c: Common, d: Description, leb: Leb, base: int, back: nat): seq<u8> {
    Framed(DescriptionBody(back, StartAndSize(d, leb, EncodingOf(c), base, DescriptionData(c, d, leb))))
  }

  // --- reading entries back -------------------------------------------------------------------

  predicate Ends(s: seq<u8>, pos: nat, rest: seq<u8>) { pos <= |s| && s[pos..] == rest }

  lemma {:induction false} Peel(s: seq<u8>, pos: nat, a: seq<u8>, rest: seq<u8>, mid: nat)
    requires Ends(s, pos, a + rest) && mid == pos + |a|
    ensures Spans(s, pos, mid, a) && Ends(s, mid, rest)
  {
    var tail := s[pos..];
    assert s[pos..mid] == tail[..|a|] == a;
    assert s[mid..] == tail[|a|..] == rest;
  }

  /** An entry is read where it stands unless it is empty or longer than the source's limit. */
  lemma {:induction false} EntryIsRead(file: seq<u8>, pos: nat, end: nat, body: seq<u8>)
    requires Spans(file, pos, end, Framed(body)) && |body| < TWO_32
    ensures FrameEntryAt(file, pos) == if 0 < |body| <= 2048 then Ok(Framed(body)) else Err(Rejected)
  {
    var word := Low(|body|, 4);
    Both(file, pos, end, word, body, pos + 4);
    LowIs(|body|, word);
  }

  /** A file that ends within an entry has none there. */
  lemma {:induction false} CutEntryIsRejected(file: seq<u8>, pos: nat, end: nat, body: seq<u8>, n: nat)
    requires |body| < TWO_32 && n < |Framed(body)| && end == |file| && Spans(file, pos, end, Framed(body)[..n])
    ensures FrameEntryAt(file, pos) == Err(Rejected)
  {
    if n >= 4 {
      var word := Low(|body|, 4);
      assert file[pos..pos + 4] == file[pos..end][..4] == Framed(body)[..4] == word;
      LowIs(|body|, word);
    }
  }

  lemma {:induction false} StringEndIs(s: seq<u8>, pos: nat, end: nat)
    requires pos <= end < |s| && s[end] == 0 && forall k :: pos <= k < end ==> s[k] != 0
    ensures StringEnd(s, pos) == Ok(end)
    decreases end - pos
  {
    if pos < end {
      StringEndIs(s, pos + 1, end);
    }
  }

  lemma {:induction false} StringIsRead(s: seq<u8>, pos: nat, end: nat, aug: seq<NonZero>, fields: seq<u8>)
    requires Ends(s, pos, aug + ([0] + fields)) && end == pos + |aug|
    ensures StringEnd(s, pos) == Ok(end) && end < |s| && s[pos..end] == aug && Ends(s, end + 1, fields)
  {
    Peel(s, pos, aug, [0] + fields, end);
    Peel(s, end, [0], fields, end + 1);
    assert s[end] == s[end..end + 1][0];
    forall k | pos <= k < end
      ensures s[k] != 0
    {
      assert s[k] == s[pos..end][k - pos] == aug[k - pos];
    }
    StringEndIs(s, pos, end);
  }

  /** Only an entry of id 0 and version 1 is taken for a CIE. */
  lemma {:induction false} HeadIsRead(entry: seq<u8>, id: u32, version: u8, aug: seq<NonZero>, fields: seq<u8>,
                                      start: nat)
    requires entry == Framed(CommonBody(id, version, aug, fields)) && start == 10 + |aug|
    ensures CieHeadAt(entry) == if id == 0 && version == 1 then Ok((aug, start)) else Err(Rejected)
    ensures Ends(entry, start, fields)
  {
    var body := CommonBody(id, version, aug, fields);
    assert entry[0..] == entry;
    Peel(entry, 0, Low(|body|, 4), body, 4);
    Peel(entry, 4, Low(id, 4), [version] + (aug + ([0] + fields)), 8);
    LowIs(id, entry[4..8]);
    Peel(entry, 8, [version], aug + ([0] + fields), 9);
    assert entry[8] == entry[8..9][0];
    StringIsRead(entry, 9, 9 + |aug|, aug, fields);
  }

  /** The tests of parse_cie: id and version, and three numbers, none of them too large as a signed one. */
  predicate Accepted(c: Common) { c.id == 0 && c.version == 1 && InRange(c) }

  predicate InRange(c: Common) {
    ToI64(c.codeAlign) <= 0x7FFF && -0x8000 <= c.dataAlign <= 0x7FFF && ToI64(c.retReg) <= 255
  }

  lemma {:induction false} FactorsAreRead(c: Common, leb: Leb, s: seq<u8>, pos: nat, p: nat, q: nat, end: nat,
                                          rest: seq<u8>)
    requires Correct(leb) && Ends(s, pos, FactorBytes(c, leb, rest))
    requires p == pos + |leb.uleb(c.codeAlign)| && q == p + |leb.sleb(c.dataAlign)|
    requires end == q + |leb.uleb(c.retReg)|
    ensures Ends(s, end, rest)
    ensures FactorsAt(s, pos)
         == if InRange(c) then Ok((ToI64(c.codeAlign), c.dataAlign, ToI64(c.retReg), end)) else Err(Rejected)
  {
    var (align, data, ret) := (leb.uleb(c.codeAlign), leb.sleb(c.dataAlign), leb.uleb(c.retReg));
    Peel(s, pos, align, data + (ret + rest), p);
    Peel(s, p, data, ret + rest, q);
    Peel(s, q, ret, rest, end);
    UlebHere(leb, c.codeAlign, align, ToI64(c.codeAlign), s, pos, p);
    SlebHere(leb, c.dataAlign, data, s, p, q);
    UlebHere(leb, c.retReg, ret, ToI64(c.retReg), s, q, end);
  }

  predicate Writes(item: Item) {
    && (item.PersonalityItem? ==> KnownFormat(item.enc) && FitsFormat(item.enc, item.routine))
    && (item.OtherItem? ==> item.letter != 76 && item.letter != 80 && item.letter != 82)
  }

  lemma {:induction false} ItemIsRead(item: Item, leb: Leb, letters: seq<u8>, s: seq<u8>, pos: nat, end: nat, enc: u8)
    requires Writes(item) && Correct(leb) && Spans(s, pos, end, ItemBytes(item, leb))
    ensures AugmentationAt([Letter(item)] + letters, s, pos, enc)
         == AugmentationAt(letters, s, end, if item.PointerItem? then item.enc else enc)
  {
    assert ([Letter(item)] + letters)[1..] == letters;
    if !item.OtherItem? {
      assert s[pos] == s[pos..end][0] == item.enc;
    }
    if item.PersonalityItem? {
      Both(s, pos, end, [item.enc], EncodePointer(item.enc, item.routine, leb), pos + 1);
      PointerHere(item.enc, 0, item.routine, leb, s, pos + 1, end);
    }
  }

  lemma {:induction false} ItemsAreRead(items: seq<Item>, leb: Leb, s: seq<u8>, pos: nat, end: nat, enc: u8)
    requires (forall item :: item in items ==> Writes(item)) && Correct(leb)
    requires Spans(s, pos, end, ItemsBytes(items, leb))
    ensures AugmentationAt(Letters(items), s, pos, enc) == Ok((EncodingAfter(items, enc), end))
    decreases items
  {
    if items != [] {
      var mid := pos + |ItemBytes(items[0], leb)|;
      Both(s, pos, end, ItemBytes(items[0], leb), ItemsBytes(items[1..], leb), mid);
      ItemIsRead(items[0], leb, Letters(items[1..]), s, pos, mid, enc);
      ItemsAreRead(items[1..], leb, s, mid, end, if items[0].PointerItem? then items[0].enc else enc);
    }
  }

  lemma {:induction false} CountedIsRead(data: seq<u8>, leb: Leb, rest: seq<u8>, s: seq<u8>, pos: nat, mid: nat,
                                         end: nat)
    requires Correct(leb) && Ends(s, pos, Counted(data, leb, rest))
    requires mid == pos + |leb.uleb(|data| % TWO_64)| && end == mid + |data|
    ensures ReadUlebAt(s, pos) == Ok((ToI64(|data| % TWO_64), mid)) && Spans(s, mid, end, data) && Ends(s, end, rest)
  {
    var n: u64 := |data| % TWO_64;
    Peel(s, pos, leb.uleb(n), data + rest, mid);
    Peel(s, mid, data, rest, end);
    UlebHere(leb, n, leb.uleb(n), ToI64(n), s, pos, mid);
  }

  lemma {:induction false} ItemsDataIsRead(items: seq<Item>, leb: Leb, rest: seq<u8>, s: seq<u8>, pos: nat, mid: nat,
                                           end: nat)
    requires Correct(leb) && (forall item :: item in items ==> Writes(item))
    requires Ends(s, pos, Counted(ItemsBytes(items, leb), leb, rest))
    requires mid == pos + |leb.uleb(|ItemsBytes(items, leb)| % TWO_64)| && end == mid + |ItemsBytes(items, leb)|
    ensures AugmentationDataAt([Z] + Letters(items), s, pos) == Ok((EncodingAfter(items, DEFAULT_ENCODING), end))
    ensures Ends(s, end, rest)
  {
    var n := |ItemsBytes(items, leb)| % TWO_64;
    CountedIsRead(ItemsBytes(items, leb), leb, rest, s, pos, mid, end);
    ItemsAreRead(items, leb, s, mid, end, DEFAULT_ENCODING);
    DataFrom(Letters(items), s, pos, ToI64(n), mid, EncodingAfter(items, DEFAULT_ENCODING), end);
  }

  lemma {:induction false} DataFrom(letters: seq<u8>, s: seq<u8>, pos: nat, n: i64, mid: nat, enc: u8, end: nat)
    requires ReadUlebAt(s, pos) == Ok((n, mid)) && AugmentationAt(letters, s, mid, DEFAULT_ENCODING) == Ok((enc, end))
    ensures AugmentationDataAt([Z] + letters, s, pos) == Ok((enc, end))
  {
    assert ([Z] + letters)[1..] == letters;
  }

  /** What parse_cie makes of the factors: sixteen bits of the one, and eight of the return register. */
  function OptionsOf(c: Common): Options
    requires Accepted(c)
  {
    Options(EncodingOf(c), ToI16(ToI64(c.codeAlign)), c.dataAlign, c.aug.Items?)
  }

  predicate IsParsed(c: Common, leb: Leb, entry: seq<u8>, r: Result<Cie>)
    requires Accepted(c)
  {
    && r.Ok?
    && r.value == Cie(OptionsOf(c), ToI64(c.retReg) % 256, r.value.start)
    && Ends(entry, r.value.start, CodeOf(c, leb))
  }

  /** Only an augmentation string that starts with `z` announces items. */
  predicate WritesAll(aug: Augmentation) {
    match aug
    case Items(items) => forall item :: item in items ==> Writes(item)
    case Bare(letters) => letters != [] ==> letters[0] != Z
  }

  /**
   A written CIE is parsed exactly when its id, version and numbers are accepted, and its instructions are where
   they end; the parser goes out of bounds when its augmentation string is empty.
   */
  lemma {:induction false} CommonIsParsed(c: Common, leb: Leb, entry: seq<u8>)
    requires Correct(leb) && WritesAll(c.aug) && entry == EncodeCommon(c, leb)
    ensures !Accepted(c) ==> CieAt(entry) == Err(Rejected)
    ensures Accepted(c) && c.aug == Bare([]) ==> CieAt(entry) == Err(OutOfBounds)
    ensures Accepted(c) && c.aug != Bare([]) ==> IsParsed(c, leb, entry, CieAt(entry))
  {
    var aug, fields := StringOf(c.aug), FactorBytes(c, leb, CommonData(c, leb));
    var pos := 10 + |aug|;
    HeadIsRead(entry, c.id, c.version, aug, fields, pos);
    if c.id == 0 && c.version == 1 {
      BodyIsParsed(c, leb, entry, pos);
    }
  }

  /** A CIE whose augmentation string is empty is well formed, but makes the parser index the empty string. */
  lemma {:induction false} EmptyAugmentationFaults(c: Common, leb: Leb, entry: seq<u8>)
    requires Correct(leb) && Accepted(c) && c.aug == Bare([]) && entry == EncodeCommon(c, leb)
    ensures CieAt(entry) == Err(OutOfBounds)
  {
    CommonIsParsed(c, leb, entry);
  }

  lemma {:induction false} BodyIsParsed(c: Common, leb: Leb, entry: seq<u8>, pos: nat)
    requires Correct(leb) && WritesAll(c.aug) && c.id == 0 && c.version == 1
    requires Ends(entry, pos, FactorBytes(c, leb, CommonData(c, leb)))
    ensures var r := CieBodyAt(StringOf(c.aug), entry, pos);
      if !InRange(c) then r == Err(Rejected)
      else if c.aug == Bare([]) then r == Err(OutOfBounds)
      else IsParsed(c, leb, entry, r)
  {
    var p := pos + |leb.uleb(c.codeAlign)|;
    var q := p + |leb.sleb(c.dataAlign)|;
    var next := q + |leb.uleb(c.retReg)|;
    FactorsAreRead(c, leb, entry, pos, p, q, next, CommonData(c, leb));
    if c.aug.Items? {
      var data := ItemsBytes(c.aug.items, leb);
      var mid := next + |leb.uleb(|data| % TWO_64)|;
      ItemsDataIsRead(c.aug.items, leb, CodeOf(c, leb), entry, next, mid, mid + |data|);
    }
  }

  /**
   The instructions mean what was written, and the return register is kept, exactly below 2^63: a larger alignment
   passes the test as a negative number, and its low sixteen bits are what is left of it.
   */
  lemma {:induction false} FactorsAreKeptIff(c: Common)
    requires Accepted(c)
    ensures c.codeAlign < TWO_63
       <==> forall step: u6 :: Meaning(OpAdvanceLoc(step), OptionsOf(c)) == Advance(step * c.codeAlign)
    ensures c.codeAlign == TWO_63 ==> forall step: u6 :: Meaning(OpAdvanceLoc(step), OptionsOf(c)) == Advance(0)
    ensures c.retReg < TWO_63 <==> ToI64(c.retReg) % 256 == c.retReg
  {
    SignedPattern(c.codeAlign);
    SignedPattern(c.retReg);
    var align: int := OptionsOf(c).codeAlign;
    var one := OpAdvanceLoc(1);
    assert Meaning(one, OptionsOf(c)) == Advance(align);
    if c.codeAlign < TWO_63 {
      assert align == c.codeAlign;
    } else {
      assert align != c.codeAlign;
    }
  }

  /** The size behind `p` bytes is read as if it were an address: relative to its position less twelve, or to that. */
  function SizeRead(enc: u8, size: i64, p: nat): i64 {
    ToI64(if SelfRelative(enc) then size + p - 12 else if DataRelative(enc) then size - 12 else size)
  }

  /** The first address is read relative to the position in the file. */
  function StartRead(enc: u8, pcStart: u64, pos: nat, base: int): i64 {
    ToI64(if Relative(enc) then pcStart + (pos - base) else pcStart)
  }

  lemma {:induction false} SizeIsKeptIff(enc: u8, size: i64, p: nat)
    requires p < TWO_63
    ensures SizeRead(enc, size, p) == size <==> !Relative(enc) || (SelfRelative(enc) && p == 12)
  {
    I64Self(size);
    var shift := if SelfRelative(enc) then p - 12 else -12;
    ShiftIsSeen(size % TWO_64, shift);
    PatternRead(size, size % TWO_64);
    Absorbs(size, shift);
    Absorbs(size % TWO_64, shift);
  }

  lemma {:induction false} StartIsKeptIff(enc: u8, pcStart: u64, pos: nat, base: int)
    ensures StartRead(enc, pcStart, pos, base) == ToI64(pcStart) <==> !Relative(enc) || (pos - base) % TWO_64 == 0
  {
    ShiftIsSeen(pcStart, pos - base);
  }

  /** Values that fit the encoding of addresses. */
  predicate Addressable(enc: u8, pcStart: u64, size: i64, base: int) {
    KnownFormat(enc) && FitsFormat(enc, RawStart(enc, pcStart, base)) && FitsFormat(enc, size)
  }

  lemma {:induction false} StartIsRead(enc: u8, pcStart: u64, pos: nat, base: int, v: i64)
    requires v == RawStart(enc, pcStart, base)
    ensures Referent(enc, v, ToI64(pos), 8) == StartRead(enc, pcStart, pos, base)
  {
    if SelfRelative(enc) {
      Moved(pcStart, base + 8, pos, 8, v);
      assert pcStart - (base + 8) + (pos + 8) == pcStart + (pos - base);
    } else if DataRelative(enc) {
      Moved(pcStart, base, pos, 0, v);
      assert pcStart - base + (pos + 0) == pcStart + (pos - base);
    } else {
      I64Self(v);
    }
  }

  lemma {:induction false} Moved(a: int, b: int, pos: int, k: int, v: i64)
    requires v == ToI64(a - b)
    ensures ToI64(v + (ToI64(pos) + k)) == ToI64(a - b + (pos + k))
  {
    Absorbs(pos, v + k);
    Absorbs(a - b, pos + k);
    assert ToI64(pos) + (v + k) == v + (ToI64(pos) + k) && pos + (v + k) == v + (pos + k);
  }

  lemma {:induction false} PointersAreRead(d: Description, leb: Leb, enc: u8, base: int, pos: nat, fde: seq<u8>, p: nat,
                                           q: nat, data: seq<u8>)
    requires Addressable(enc, d.pcStart, d.size, base) && Correct(leb)
    requires p == 8 + |StartBytes(d, leb, enc, base)| && q == p + |EncodePointer(enc, d.size, leb)|
    requires Ends(fde, 8, StartAndSize(d, leb, enc, base, data))
    ensures ReadValueAt(enc, ToI64(pos), fde, 8) == Ok((StartRead(enc, d.pcStart, pos, base), p))
    ensures ReadValueAt(enc, -12, fde, p) == Ok((SizeRead(enc, d.size, p), q))
    ensures Ends(fde, q, data)
  {
    var v := RawStart(enc, d.pcStart, base);
    Peel(fde, 8, StartBytes(d, leb, enc, base), EncodePointer(enc, d.size, leb) + data, p);
    Peel(fde, p, EncodePointer(enc, d.size, leb), data, q);
    PointerHere(enc, ToI64(pos), v, leb, fde, 8, p);
    StartIsRead(enc, d.pcStart, pos, base, v);
    PointerHere(enc, -12, d.size, leb, fde, p, q);
    SizeIsRead(enc, d.size, p);
  }

  lemma {:induction false} SizeIsRead(enc: u8, size: i64, p: nat)
    ensures Referent(enc, size, -12, p) == SizeRead(enc, size, p)
  {
    assert size + (-12 + p) == size + p - 12;
  }

  lemma {:induction false} HeaderFrom(fde: seq<u8>, pos: nat, data: i64, o: Options, pcStart: i64, p: nat, size: i64,
                                      q: nat, n: i64, mid: nat, end: nat)
    requires data == ToI64(pos)
    requires ReadValueAt(o.enc, data, fde, 8) == Ok((pcStart, p)) && ReadValueAt(o.enc, -12, fde, p) == Ok((size, q))
    requires o.hasAugData ==> n >= 0 && end == mid + n && ReadUlebAt(fde, q) == Ok((n, mid))
    requires !o.hasAugData ==> end == q
    ensures FdeHeaderAt(fde, pos, o) == Ok((pcStart, size, end))
  {
  }

  /** The positions behind the address, the size, and the length of the augmentation data and the data. */
  datatype Places = Places(p: nat, q: nat, mid: nat, end: nat)

  function PlacesOf(c: Common, d: Description, leb: Leb, base: int): Places {
    var p := 8 + |StartBytes(d, leb, EncodingOf(c), base)|;
    var q := p + |EncodePointer(EncodingOf(c), d.size, leb)|;
    var mid := q + |leb.uleb(|d.augmentation| % TWO_64)|;
    if c.aug.Items? then Places(p, q, mid, mid + |d.augmentation|) else Places(p, q, q, q)
  }

  lemma {:induction false} HeaderIsRead(c: Common, d: Description, leb: Leb, base: int, pos: nat, fde: seq<u8>,
                                        at: Places, o: Options, pcStart: i64, size: i64, data: seq<u8>)
    requires Correct(leb) && Addressable(o.enc, d.pcStart, d.size, base) && o.enc == EncodingOf(c)
    requires o.hasAugData == c.aug.Items?
    requires (c.aug.Items? ==> |d.augmentation| < TWO_63) && data == DescriptionData(c, d, leb)
    requires Ends(fde, 8, StartAndSize(d, leb, o.enc, base, data)) && at == PlacesOf(c, d, leb, base)
    requires pcStart == StartRead(o.enc, d.pcStart, pos, base) && size == SizeRead(o.enc, d.size, at.p)
    ensures FdeHeaderAt(fde, pos, o) == Ok((pcStart, size, at.end))
    ensures Ends(fde, at.end, EncodeOps(d.ops, leb, o.enc))
  {
    PointersAreRead(d, leb, o.enc, base, pos, fde, at.p, at.q, data);
    var n: i64 := 0;
    if c.aug.Items? {
      n := |d.augmentation|;
      I64Self(n);
      SmallMod(n);
      CountedIsRead(d.augmentation, leb, EncodeOps(d.ops, leb, o.enc), fde, at.q, at.mid, at.end);
    }
    HeaderFrom(fde, pos, ToI64(pos), o, pcStart, at.p, size, at.q, n, at.mid, at.end);
  }

  lemma {:induction false} WordsArePassed(fde: seq<u8>, back: nat, rest: seq<u8>)
    requires fde == Framed(DescriptionBody(back, rest))
    ensures Ends(fde, 8, rest) && |fde| >= 8 && fde[4..8] == Low(back, 4)
  {
    assert fde[0..] == fde;
    Peel(fde, 0, Low(4 + |rest|, 4), Low(back, 4) + rest, 4);
    Peel(fde, 4, Low(back, 4), rest, 8);
  }

  /** Initial instructions that are written as a producer would are run as they are meant. */
  lemma {:induction false} CodeIsOpened(ops: seq<Op>, leb: Leb, s: seq<u8>, pos: nat, st: State, o: Options)
    requires Correct(leb) && forall op :: op in ops ==> Writable(op, o.enc)
    requires Ends(s, pos, EncodeOps(ops, leb, o.enc))
    ensures RunInitialAt(s, pos, st, o) == RecordInitial(st, Meanings(ops, o))
    decreases ops
  {
    if ops != [] {
      var args := EncodeArgs(ArgsOf(ops[0], o.enc), leb);
      var (start, end) := (pos + 1, pos + 1 + |args|);
      FirstOfCode(s, pos, start, end, Opcode(ops[0]), args, EncodeOps(ops[1..], leb, o.enc));
      DecodeUndoesEncode(ops[0], leb, s, pos, start, end, st.pc, o);
      var i := Narrowed(Meaning(ops[0], o));
      if Step(st, i).Ok? {
        CodeIsOpened(ops[1..], leb, s, end, Step(st, i).value.0, o);
      }
      FirstOpened(s, pos, st, o, i, end, Meanings(ops[1..], o));
    }
  }

  lemma {:induction false} FirstOpened(s: seq<u8>, pos: nat, st: State, o: Options, i: Instr, next: nat,
                                       rest: seq<Instr>)
    requires pos < |s| && Decode(s, pos, st.pc, o) == Ok((i, next))
    requires Step(st, i).Ok? ==>
               RunInitialAt(s, next, Step(st, i).value.0, o) == RecordInitial(Step(st, i).value.0, rest)
    ensures RunInitialAt(s, pos, st, o) == RecordInitial(st, [i] + rest)
  {
    assert ([i] + rest)[1..] == rest;
  }

  // --- loading --------------------------------------------------------------------------------

  predicate WritableCommon(c: Common) {
    WritesAll(c.aug) && forall op :: op in c.ops ==> Writable(op, EncodingOf(c))
  }

  predicate WritableDescription(c: Common, d: Description, base: int) {
    Addressable(EncodingOf(c), d.pcStart, d.size, base) && forall op :: op in d.ops ==> Writable(op, EncodingOf(c))
  }

  /** A CIE and an FDE stand in a file. */
  predicate Stand(file: seq<u8>, ciePos: nat, pos: nat, cie: seq<u8>, fde: seq<u8>) {
    && |cie| < TWO_32 && |fde| < TWO_32
    && Spans(file, ciePos, ciePos + |cie|, cie) && Spans(file, pos, pos + |fde|, fde)
  }

  /** The source's limit on entries, without their length words. */
  predicate Short(cie: seq<u8>, fde: seq<u8>) { |cie| <= 2048 + 4 && |fde| <= 2048 + 4 }

  lemma {:induction false} EntriesAreRead(file: seq<u8>, ciePos: nat, pos: nat, back: nat, cie: seq<u8>, rest: seq<u8>,
                                          body: seq<u8>, fde: seq<u8>)
    requires ciePos + back == pos + 4 && 0 < back < TWO_32 && rest != []
    requires cie == Framed(rest) && fde == Framed(body) && Stand(file, ciePos, pos, cie, fde)
    requires |body| >= 4 && fde[4..8] == Low(back, 4)
    ensures EntriesAt(file, pos) == if Short(cie, fde) then Ok((fde, cie)) else Err(Rejected)
  {
    EntryIsRead(file, pos, pos + |fde|, body);
    EntryIsRead(file, ciePos, ciePos + |cie|, rest);
    LowIs(back, fde[4..8]);
  }

  /** The program that is meant, when the description says where its code starts. */
  function ProgramOf(c: Common, d: Description, pcStart: i64): Program
    requires Accepted(c)
  {
    Program(pcStart, Meanings(c.ops, OptionsOf(c)), Meanings(d.ops, OptionsOf(c)))
  }

  function LoadedOf(c: Common, d: Description, pcStart: i64, size: i64): Result<Loaded>
    requires Accepted(c)
  {
    var rows :- Load(ProgramOf(c, d, pcStart));
    Ok(Loaded(ToU64(size), ToI64(c.retReg) % 256, rows))
  }

  lemma {:induction false} RowsAreLoaded(c: Common, d: Description, leb: Leb, fde: seq<u8>, entry: seq<u8>, pos: nat,
                                         read: Cie, pcStart: i64, size: i64, start: nat)
    requires Correct(leb) && Accepted(c) && read == Cie(OptionsOf(c), ToI64(c.retReg) % 256, read.start)
    requires Ends(entry, read.start, CodeOf(c, leb))
    requires (forall op :: op in c.ops ==> Writable(op, EncodingOf(c)))
          && forall op :: op in d.ops ==> Writable(op, EncodingOf(c))
    requires FdeHeaderAt(fde, pos, read.options) == Ok((pcStart, size, start))
    requires Ends(fde, start, EncodeOps(d.ops, leb, EncodingOf(c)))
    ensures RowsOfEntry(fde, pos, entry, read) == LoadedOf(c, d, pcStart, size)
  {
    var o := OptionsOf(c);
    CodeIsOpened(c.ops, leb, entry, read.start, Start(pcStart), o);
    var st := RecordInitial(Start(pcStart), Meanings(c.ops, o));
    if st.Ok? {
      CodeIsRecorded(d.ops, leb, fde, start, st.value.(pc := pcStart), o);
    }
  }

  lemma {:induction false} EntryIsLoaded(c: Common, d: Description, leb: Leb, fde: seq<u8>, entry: seq<u8>, pos: nat,
                                         base: int, read: Cie, pcStart: i64, size: i64, data: seq<u8>)
    requires Correct(leb) && Accepted(c) && IsParsed(c, leb, entry, Ok(read))
    requires (forall op :: op in c.ops ==> Writable(op, EncodingOf(c))) && WritableDescription(c, d, base)
    requires (c.aug.Items? ==> |d.augmentation| < TWO_63) && data == DescriptionData(c, d, leb)
    requires Ends(fde, 8, StartAndSize(d, leb, EncodingOf(c), base, data))
    requires pcStart == StartRead(EncodingOf(c), d.pcStart, pos, base)
    requires size == SizeRead(EncodingOf(c), d.size, PlacesOf(c, d, leb, base).p)
    ensures RowsOfEntry(fde, pos, entry, read) == LoadedOf(c, d, pcStart, size)
  {
    var at := PlacesOf(c, d, leb, base);
    HeaderIsRead(c, d, leb, base, pos, fde, at, read.options, pcStart, size, data);
    RowsAreLoaded(c, d, leb, fde, entry, pos, read, pcStart, size, at.end);
  }

  /** The outcome that written entries should have. */
  function OutcomeOf(c: Common, d: Description, leb: Leb, pos: nat, base: int, short: bool): Result<Loaded> {
    if !short || !Accepted(c) then Err(Rejected)
    else if c.aug == Bare([]) then Err(OutOfBounds)
    else
      LoadedOf(c, d, StartRead(EncodingOf(c), d.pcStart, pos, base),
               SizeRead(EncodingOf(c), d.size, PlacesOf(c, d, leb, base).p))
  }

  /**
   Loading what was written gives the rows of what it means.  It is rejected exactly when an entry is too long, when
   the CIE is not accepted, or when its instructions are not.
   */
  lemma {:induction false} LoadUndoesEncode(file: seq<u8>, ciePos: nat, c: Common, pos: nat, base: int, back: nat,
                                            d: Description, leb: Leb)
    requires Correct(leb) && WritableCommon(c) && WritableDescription(c, d, base)
    requires ciePos + back == pos + 4 && 0 < back < TWO_32
    requires Stand(file, ciePos, pos, EncodeCommon(c, leb), EncodeDescription(c, d, leb, base, back))
    ensures var short := Short(EncodeCommon(c, leb), EncodeDescription(c, d, leb, base, back));
      && LoadAt(file, pos) == OutcomeOf(c, d, leb, pos, base, short)
      && (LoadAt(file, pos).Ok?
          <==> short && Accepted(c) && c.aug != Bare([])
               && Acceptable(Meanings(c.ops, OptionsOf(c)) + Meanings(d.ops, OptionsOf(c))))
  {
    var (cie, fde) := (EncodeCommon(c, leb), EncodeDescription(c, d, leb, base, back));
    var enc, data := EncodingOf(c), DescriptionData(c, d, leb);
    var body := DescriptionBody(back, StartAndSize(d, leb, enc, base, data));
    WordsArePassed(fde, back, StartAndSize(d, leb, enc, base, data));
    var rest := CommonBody(c.id, c.version, StringOf(c.aug), FactorBytes(c, leb, CommonData(c, leb)));
    EntriesAreRead(file, ciePos, pos, back, cie, rest, body, fde);
    CommonIsParsed(c, leb, cie);
    if Accepted(c) {
      AugmentationFits(c, d, leb, base, back, fde);
      var (start, size) := (StartRead(enc, d.pcStart, pos, base), SizeRead(enc, d.size, PlacesOf(c, d, leb, base).p));
      if c.aug != Bare([]) {
        EntryIsLoaded(c, d, leb, fde, cie, pos, base, CieAt(cie).value, start, size, data);
      }
      LoadsIffAcceptable(ProgramOf(c, d, start));
    }
  }

  /** A CIE is not taken for an FDE: its id word is no way back to another entry. */
  lemma {:induction false} CommonIsNoDescription(file: seq<u8>, pos: nat, c: Common, leb: Leb)
    requires c.id == 0 && |EncodeCommon(c, leb)| < TWO_32
    requires Spans(file, pos, pos + |EncodeCommon(c, leb)|, EncodeCommon(c, leb))
    ensures LoadAt(file, pos) == Err(Rejected)
  {
    var rest := [c.version] + (StringOf(c.aug) + ([0] + FactorBytes(c, leb, CommonData(c, leb))));
    var entry := Framed(Low(0, 4) + rest);
    assert EncodeCommon(c, leb) == entry;
    EntryIsRead(file, pos, pos + |entry|, Low(0, 4) + rest);
    WordsArePassed(entry, 0, rest);
    LowIs(0, entry[4..8]);
  }

  lemma {:induction false} AugmentationFits(c: Common, d: Description, leb: Leb, base: int, back: nat, fde: seq<u8>)
    requires fde == EncodeDescription(c, d, leb, base, back)
    ensures c.aug.Items? ==> |d.augmentation| <= |fde|
  {
  }

  /** From the producer to the replay: the rows that are loaded replay the section 6.4 table of what was written. */
  lemma {:induction false} WrittenReplayIsTable(file: seq<u8>, ciePos: nat, c: Common, pos: nat, base: int, back: nat,
                                                d: Description, leb: Leb, target: u64, r: nat, maxReg: nat)
    requires Correct(leb) && WritableCommon(c) && WritableDescription(c, d, base)
    requires ciePos + back == pos + 4 && 0 < back < TWO_32 && r < maxReg
    requires Stand(file, ciePos, pos, EncodeCommon(c, leb), EncodeDescription(c, d, leb, base, back))
    requires LoadAt(file, pos).Ok?
    ensures Accepted(c)
    ensures ReplaysTable(ProgramOf(c, d, StartRead(EncodingOf(c), d.pcStart, pos, base)), LoadAt(file, pos).value.rows,
                         target, r, maxReg)
  {
    LoadUndoesEncode(file, ciePos, c, pos, base, back, d, leb);
    ProgramReplayIsTable(ProgramOf(c, d, StartRead(EncodingOf(c), d.pcStart, pos, base)), target, r, maxReg);
  }
}
